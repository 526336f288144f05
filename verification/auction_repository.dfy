/** Auction persistence: create with counter seed, update, the strong read
    that reloads an auction's bids, and the two by-region queries. */
module AuctionRepository {
  import opened Common
  import opened Bids
  import opened Auctions
  import opened Store
  import BidRepository

  /** The auctions of `region` that are Active (query order is unspecified,
      hence a set). */
  function GetActiveAuctionsByRegion(db: Database, region: Region): (r: set<Auction>)
    reads db`auctions, db.auctions.Values
    ensures forall a :: a in r ==> a in db.auctions.Values && a.region == region && a.state == Active
    ensures forall k :: k in db.auctions && db.auctions[k].region == region && db.auctions[k].state == Active ==>
      db.auctions[k] in r
  {
    set a | a in db.auctions.Values && a.region == region && a.state == Active
  }

  /** The auctions of `region` that are Paused: those a heal must reconcile. */
  function GetAuctionsThatNeedsReconciliationByRegion(db: Database, region: Region): (r: set<Auction>)
    reads db`auctions, db.auctions.Values
    ensures forall a :: a in r ==> a in db.auctions.Values && a.region == region && a.state == Paused
    ensures forall k :: k in db.auctions && db.auctions[k].region == region && db.auctions[k].state == Paused ==>
      db.auctions[k] in r
  {
    set a | a in db.auctions.Values && a.region == region && a.state == Paused
  }

  /** No auction is both open to pausing and waiting for reconciliation. */
  lemma ActiveAndNeedingReconciliationAreDisjoint(db: Database, region: Region)
    ensures GetActiveAuctionsByRegion(db, region) !! GetAuctionsThatNeedsReconciliationByRegion(db, region)
  {
  }

  /** The plain read: the auction stored under `id`, None when absent. In a
      consistent store it is the auction whose Id is `id`. */
  function GetByIdAsync(db: Database, id: nat): (r: Option<Auction>)
    reads db`auctions
    ensures r.None? <==> id !in db.auctions
    ensures r.Some? ==> r.value in db.auctions.Values
    ensures r.Some? && db.Valid() ==> r.value.id == id
  {
    if id in db.auctions then Some(db.auctions[id]) else None
  }

  /** The message of the exception a second entity with a tracked key raises. */
  const AlreadyTracked: string := "An entity with the same key is already being tracked"

  /** Stores the auction and seeds its sequence counter at 0, so its first
      sequence is 1. A key already in use makes the save throw and nothing is
      stored. */
  method CreateAsync(db: Database, auction: Auction) returns (r: Result<nat>)
    modifies db
    ensures r.Failure? <==> auction.id in old(db.auctions) || auction.id in old(db.sequences)
    ensures r.Failure? ==> r.message == AlreadyTracked
    ensures r.Success? ==> r.value == auction.id
    ensures r.Success? ==> db.auctions == old(db.auctions)[auction.id := auction]
    ensures r.Success? ==> db.sequences == old(db.sequences)[auction.id := 0]
    ensures r.Success? ==> BidRepository.CurrentSequence(db.sequences, auction.id) == 0
    ensures r.Failure? ==> db.auctions == old(db.auctions) && db.sequences == old(db.sequences)
    ensures db.bids == old(db.bids) && db.events == old(db.events)
    ensures old(db.Valid()) ==> db.Valid()
  {
    if auction.id in db.auctions || auction.id in db.sequences {
      return Failure(AlreadyTracked);
    }
    db.auctions := db.auctions[auction.id := auction];
    db.sequences := db.sequences[auction.id := 0];
    r := Success(auction.id);
  }

  /** The context already tracks every loaded auction, so saving writes back
      what the object holds and reports `true`. An id with no row affects no
      row, which the save reports as a concurrency conflict, caught as
      `false`. A different object carrying a stored id cannot be attached
      beside the tracked one; that error is not caught. */
  method UpdateAsync(db: Database, auction: Auction) returns (r: Result<bool>)
    ensures auction.id !in db.auctions ==> r == Success(false)
    ensures auction.id in db.auctions && db.auctions[auction.id] == auction ==> r == Success(true)
    ensures auction.id in db.auctions && db.auctions[auction.id] != auction ==> r == Failure(AlreadyTracked)
  {
    if auction.id !in db.auctions {
      r := Success(false);
    } else if db.auctions[auction.id] == auction {
      r := Success(true);
    } else {
      r := Failure(AlreadyTracked);
    }
  }

  /** The strong read: the stored auction, with its bid list replaced by all
      of that auction's stored bids ordered by Sequence; None when absent. */
  method GetWithBidsAsync(db: Database, id: nat) returns (r: Option<Auction>)
    modifies db.AuctionObject(id)
    ensures r.None? <==> id !in db.auctions
    ensures r.Some? ==> r.value == db.auctions[id]
    ensures r.Some? ==> r.value.bids == BidRepository.GetByAuctionId(db, id)
    ensures r.Some? ==> r.value.state == old(r.value.state) && r.value.currentPrice == old(r.value.currentPrice)
    ensures r.Some? ==> r.value.winningBidderId == old(r.value.winningBidderId) && r.value.version == old(r.value.version)
    ensures r.Some? ==> r.value.View() == old(r.value.View()).(bids := old(BidRepository.GetByAuctionId(db, id)))
  {
    if id !in db.auctions {
      return None;
    }
    var auction := db.auctions[id];
    var bids := BidRepository.GetByAuctionId(db, id);
    LoadBids(auction, bids);
    r := Some(auction);
  }

  /** Clears the auction's bid list, then adds the given bids one by one. */
  method LoadBids(auction: Auction, bids: seq<Bid>)
    modifies auction
    ensures auction.bids == bids
    ensures auction.state == old(auction.state) && auction.currentPrice == old(auction.currentPrice)
    ensures auction.winningBidderId == old(auction.winningBidderId) && auction.version == old(auction.version)
  {
    auction.ClearBids();
    var i := 0;
    while i < |bids|
      invariant i <= |bids|
      invariant auction.bids == bids[..i]
      invariant auction.state == old(auction.state) && auction.currentPrice == old(auction.currentPrice)
      invariant auction.winningBidderId == old(auction.winningBidderId) && auction.version == old(auction.version)
    {
      auction.AddBid(bids[i]);
      i := i + 1;
    }
    assert bids[..i] == bids;
  }
}
