/** Bid persistence: the per-auction sequence counter, inserts and the two
    bid queries. */
module BidRepository {
  import opened Sorting
  import opened Bids
  import opened Store

  function BySequence(b: Bid): Key {
    Key(b.sequence, 0, 0)
  }

  function ByCreatedAt(b: Bid): Key {
    Key(b.createdAt, 0, 0)
  }

  /** The stored bids of one auction, in table order. */
  function OfAuction(bids: seq<Bid>, auctionId: nat): (r: seq<Bid>)
    ensures forall b :: b in r ==> b in bids && b.auctionId == auctionId
    ensures forall b :: b in bids && b.auctionId == auctionId ==> b in r
    ensures forall b :: b in bids && b.auctionId == auctionId ==> multiset(r)[b] == multiset(bids)[b]
  {
    Filter(bids, (b: Bid) => b.auctionId == auctionId)
  }

  /** Exactly the auction's bids, each as often as it is stored, ordered by
      Sequence. */
  function GetByAuctionId(db: Database, auctionId: nat): (r: seq<Bid>)
    reads db`bids
    ensures forall b :: b in r ==> b in db.bids && b.auctionId == auctionId
    ensures forall b :: b in db.bids && b.auctionId == auctionId ==> b in r
    ensures multiset(r) == multiset(OfAuction(db.bids, auctionId))
    ensures SortedBy(r, BySequence)
  {
    SortBy(OfAuction(db.bids, auctionId), BySequence)
  }

  /** A bid of the auction flagged as placed during a partition and created
      before `deadline`. */
  predicate QueuedFor(b: Bid, auctionId: nat, deadline: int)
    reads b
  {
    b.auctionId == auctionId && b.isDuringPartition && b.createdAt < deadline
  }

  /** The auction's stored bids flagged as placed during a partition and
      created before `deadline`, in table order, each as often as stored. */
  function DuringPartitionOf(bids: seq<Bid>, auctionId: nat, deadline: int): (r: seq<Bid>)
    reads bids
    ensures forall b :: b in r ==> b in bids && QueuedFor(b, auctionId, deadline)
    ensures forall b :: b in bids && QueuedFor(b, auctionId, deadline) ==> b in r
    ensures forall b :: b in bids ==>
      multiset(r)[b] == if QueuedFor(b, auctionId, deadline) then multiset(bids)[b] else 0
    ensures |r| <= |bids|
  {
    if bids == [] then []
    else
      var rest := DuringPartitionOf(bids[1..], auctionId, deadline);
      assert bids == [bids[0]] + bids[1..];
      assert forall x :: x in bids && x !in bids[1..] ==> multiset(rest)[x] == 0 && multiset(bids[1..])[x] == 0;
      if QueuedFor(bids[0], auctionId, deadline) then [bids[0]] + rest
      else rest
  }

  /** The bids queued during a partition that reconciliation may still
      count, oldest first. */
  function GetBidsMadeDuringPartitionWithinAuctionDeadline(db: Database, auctionId: nat, deadline: int): (r: seq<Bid>)
    reads db`bids, db.bids
    ensures forall b :: b in r ==> b in db.bids && QueuedFor(b, auctionId, deadline)
    ensures forall b :: b in db.bids && QueuedFor(b, auctionId, deadline) ==> b in r
    ensures forall b :: b in db.bids ==>
      multiset(r)[b] == if QueuedFor(b, auctionId, deadline) then multiset(db.bids)[b] else 0
    ensures SortedBy(r, ByCreatedAt)
  {
    SortBy(DuringPartitionOf(db.bids, auctionId, deadline), ByCreatedAt)
  }

  /** The value of an auction's counter row; a missing row counts as 0,
      the value the row is created with. */
  function CurrentSequence(counters: map<nat, int>, auctionId: nat): int {
    if auctionId in counters then counters[auctionId] else 0
  }

  /** The counters after one GetNextSequence for `auctionId`. */
  function Advance(counters: map<nat, int>, auctionId: nat): map<nat, int> {
    counters[auctionId := CurrentSequence(counters, auctionId) + 1]
  }

  /** The counters after `n` calls for `auctionId`. */
  function AdvanceTimes(counters: map<nat, int>, auctionId: nat, n: nat): map<nat, int>
    decreases n
  {
    if n == 0 then counters else AdvanceTimes(Advance(counters, auctionId), auctionId, n - 1)
  }

  /** The values `n` successive calls for `auctionId` return. */
  function Draws(counters: map<nat, int>, auctionId: nat, n: nat): seq<int>
    decreases n
  {
    if n == 0 then []
    else [CurrentSequence(counters, auctionId) + 1] + Draws(Advance(counters, auctionId), auctionId, n - 1)
  }

  /** `n` calls return c+1, ..., c+n for the counter's value c: consecutive,
      hence pairwise distinct, and they leave the counter at c+n and every
      other auction's counter as it was. */
  lemma {:induction false} DrawsAreConsecutive(counters: map<nat, int>, auctionId: nat, n: nat)
    ensures |Draws(counters, auctionId, n)| == n
    ensures forall i :: 0 <= i < n ==>
      Draws(counters, auctionId, n)[i] == CurrentSequence(counters, auctionId) + 1 + i
    ensures CurrentSequence(AdvanceTimes(counters, auctionId, n), auctionId) == CurrentSequence(counters, auctionId) + n
    ensures forall k :: k != auctionId ==>
      (k in AdvanceTimes(counters, auctionId, n) <==> k in counters) &&
      (k in counters ==> AdvanceTimes(counters, auctionId, n)[k] == counters[k])
    decreases n
  {
    if n > 0 {
      var next := Advance(counters, auctionId);
      DrawsAreConsecutive(next, auctionId, n - 1);
      var d := Draws(counters, auctionId, n);
      forall i | 0 <= i < n
        ensures d[i] == CurrentSequence(counters, auctionId) + 1 + i
      {
        if i > 0 {
          assert d[i] == Draws(next, auctionId, n - 1)[i - 1];
        }
      }
    }
  }

  /** Increments the auction's counter, creating the row at 0 first when it
      is missing, and returns the new value. */
  method GetNextSequence(db: Database, auctionId: nat) returns (n: int)
    modifies db
    ensures n == CurrentSequence(old(db.sequences), auctionId) + 1
    ensures db.sequences == Advance(old(db.sequences), auctionId)
    ensures db.auctions == old(db.auctions) && db.bids == old(db.bids) && db.events == old(db.events)
  {
    var current := 0;
    if auctionId in db.sequences {
      current := db.sequences[auctionId];
    }
    n := current + 1;
    db.sequences := db.sequences[auctionId := n];
  }

  /** Inserts exactly one bid and returns its id. */
  method AddAsync(db: Database, bid: Bid) returns (id: nat)
    modifies db
    ensures id == bid.id
    ensures db.bids == old(db.bids) + [bid]
    ensures db.auctions == old(db.auctions) && db.sequences == old(db.sequences) && db.events == old(db.events)
  {
    db.bids := db.bids + [bid];
    id := bid.id;
  }
}
