/** The one database context every repository of the core shares. */
module Store {
  import opened Bids
  import opened Auctions
  import opened Partitions

  /** The tables hold object references, as the context's identity map does:
      loading the same row twice yields the same object, and changing a loaded
      entity changes what every later query sees. */
  class Database {
    /** Auctions keyed by id. */
    var auctions: map<nat, Auction>
    /** Bids in insertion order. */
    var bids: seq<Bid>
    /** The per-auction sequence counter rows, keyed by auction id. */
    var sequences: map<nat, int>
    /** Partition incidents in insertion order. */
    var events: seq<PartitionEvent>

    constructor ()
      ensures auctions == map[] && bids == [] && sequences == map[] && events == []
    {
      auctions := map[];
      bids := [];
      sequences := map[];
      events := [];
    }

    /** Every auction is stored under its own id. */
    ghost predicate Valid()
      reads this`auctions
    {
      forall k :: k in auctions ==> auctions[k].id == k
    }

    /** The auction object stored under `id`, if any, as a frame. */
    function AuctionObject(id: nat): set<object>
      reads this`auctions
    {
      if id in auctions then {auctions[id]} else {}
    }

    /** The stored bids of auction `id`, as a frame. */
    function BidsOf(id: nat): set<Bid>
      reads this`bids
    {
      set b | b in bids && b.auctionId == id
    }
  }
}
