/** Partition-incident persistence: the "current incident" lookups, inserts,
    updates and the history query. */
module PartitionEventRepository {
  import opened Common
  import opened Sorting
  import opened Partitions
  import opened Store

  /** OrderByDescending(CreatedAt). */
  function NewestFirst(e: PartitionEvent): Key {
    Key(-e.createdAt, 0, 0)
  }

  /** The active (Partitioned or Reconciling) incidents, restricted to one
      auction region when `region` is given, in table order. */
  function ActiveEvents(events: seq<PartitionEvent>, region: Option<Region>): (r: seq<PartitionEvent>)
    reads events
    ensures forall e :: e in r ==> e in events && e.IsActive() && (region.Some? ==> e.auctionRegion == region.value)
    ensures forall e :: e in events && e.IsActive() && (region.Some? ==> e.auctionRegion == region.value) ==> e in r
  {
    if events == [] then []
    else if events[0].IsActive() && (region.Some? ==> events[0].auctionRegion == region.value) then
      [events[0]] + ActiveEvents(events[1..], region)
    else ActiveEvents(events[1..], region)
  }

  /** The newest of `active`: the first once ordered newest first. */
  function NewestOf(active: seq<PartitionEvent>): (r: Option<PartitionEvent>)
    ensures r.None? <==> active == []
    ensures r.Some? ==> r.value in active && forall e :: e in active ==> e.createdAt <= r.value.createdAt
  {
    var sorted := SortBy(active, NewestFirst);
    if sorted == [] then None
    else
      assert forall e :: e in sorted ==> KeyLe(NewestFirst(sorted[0]), NewestFirst(e)) by {
        forall e | e in sorted ensures KeyLe(NewestFirst(sorted[0]), NewestFirst(e)) {
          SortedHeadIsLeast(sorted, NewestFirst, e);
        }
      }
      Some(sorted[0])
  }

  /** The newest active incident (of one auction region when given): None
      exactly when there is no active one; otherwise an active incident no
      other active incident is newer than. Healthy and Resolved incidents are
      never returned. */
  function Newest(events: seq<PartitionEvent>, region: Option<Region>): (r: Option<PartitionEvent>)
    reads events
    ensures r.None? <==> ActiveEvents(events, region) == []
    ensures r.Some? ==> r.value in events && r.value.IsActive()
    ensures r.Some? && region.Some? ==> r.value.auctionRegion == region.value
    ensures r.Some? ==> forall e :: e in events && e.IsActive() && (region.Some? ==> e.auctionRegion == region.value) ==>
      e.createdAt <= r.value.createdAt
  {
    NewestOf(ActiveEvents(events, region))
  }

  function GetCurrentPartitionAsync(db: Database): (r: Option<PartitionEvent>)
    reads db`events, db.events
    ensures r.None? <==> forall e :: e in db.events ==> !e.IsActive()
    ensures r.Some? ==> r.value in db.events && r.value.IsActive()
    ensures r.Some? ==> forall e :: e in db.events && e.IsActive() ==> e.createdAt <= r.value.createdAt
  {
    Newest(db.events, None)
  }

  function GetCurrentPartitionByAuctionRegionAsync(db: Database, auctionRegion: Region): (r: Option<PartitionEvent>)
    reads db`events, db.events
    ensures r.None? <==> forall e :: e in db.events && e.auctionRegion == auctionRegion ==> !e.IsActive()
    ensures r.Some? ==> r.value in db.events && r.value.IsActive() && r.value.auctionRegion == auctionRegion
    ensures r.Some? ==> forall e :: e in db.events && e.IsActive() && e.auctionRegion == auctionRegion ==>
      e.createdAt <= r.value.createdAt
  {
    Newest(db.events, Some(auctionRegion))
  }

  /** Which of `events` are active, position by position. */
  function ActiveFlags(events: seq<PartitionEvent>): (r: seq<bool>)
    reads events
    ensures |r| == |events|
    ensures forall i :: 0 <= i < |events| ==> r[i] == events[i].IsActive()
  {
    if events == [] then [] else [events[0].IsActive()] + ActiveFlags(events[1..])
  }

  /** Flags that agree with the incidents position by position are their
      active flags. */
  lemma SameActiveFlags(events: seq<PartitionEvent>, flags: seq<bool>)
    requires |flags| == |events|
    requires forall i :: 0 <= i < |events| ==> flags[i] == events[i].IsActive()
    ensures ActiveFlags(events) == flags
  {
  }

  /** The active list rebuilt from recorded flags instead of the incidents'
      current statuses. */
  function ActiveByFlags(events: seq<PartitionEvent>, flags: seq<bool>, region: Option<Region>): seq<PartitionEvent>
    requires |flags| == |events|
  {
    if events == [] then []
    else if flags[0] && (region.Some? ==> events[0].auctionRegion == region.value) then
      [events[0]] + ActiveByFlags(events[1..], flags[1..], region)
    else ActiveByFlags(events[1..], flags[1..], region)
  }

  /** The lookups only look at which incidents are active: the current
      incident is determined by the table and its active flags, so status
      changes that keep every incident active or inactive leave it as it
      was. */
  lemma {:induction false} NewestByFlags(events: seq<PartitionEvent>, region: Option<Region>)
    ensures Newest(events, region) == NewestOf(ActiveByFlags(events, ActiveFlags(events), region))
  {
    ActiveEventsByFlags(events, region);
  }

  lemma {:induction false} ActiveEventsByFlags(events: seq<PartitionEvent>, region: Option<Region>)
    ensures ActiveEvents(events, region) == ActiveByFlags(events, ActiveFlags(events), region)
  {
    if events != [] {
      ActiveEventsByFlags(events[1..], region);
    }
  }

  /** The incidents created at or after `since`, newest first. */
  function GetHistoryAsync(db: Database, since: int): (r: seq<PartitionEvent>)
    reads db`events
    ensures forall e :: e in r ==> e in db.events && e.createdAt >= since
    ensures forall e :: e in db.events && e.createdAt >= since ==> e in r
    ensures forall e :: e in db.events ==> multiset(r)[e] == if e.createdAt >= since then multiset(db.events)[e] else 0
    ensures forall i, j :: 0 <= i < j < |r| ==> r[i].createdAt >= r[j].createdAt
  {
    var r := SortBy(Filter(db.events, (e: PartitionEvent) => e.createdAt >= since), NewestFirst);
    assert forall i, j :: 0 <= i < j < |r| ==> KeyLe(NewestFirst(r[i]), NewestFirst(r[j]));
    r
  }

  /** At most one active incident per auction region. */
  ghost predicate AtMostOneActivePerRegion(events: seq<PartitionEvent>)
    reads events
  {
    forall i, j :: 0 <= i < j < |events| && events[i].IsActive() && events[j].IsActive() ==>
      events[i].auctionRegion != events[j].auctionRegion
  }

  /** Inserts exactly one incident and returns its id. */
  method AddAsync(db: Database, e: PartitionEvent) returns (id: nat)
    modifies db
    ensures id == e.id
    ensures db.events == old(db.events) + [e]
    ensures db.auctions == old(db.auctions) && db.bids == old(db.bids) && db.sequences == old(db.sequences)
  {
    db.events := db.events + [e];
    id := e.id;
  }

  /** The message of the concurrency exception a save that affects no row throws. */
  const NoRowAffected: string := "The database operation was expected to affect 1 row(s), but actually affected 0 row(s)"

  /** The table already holds the tracked object, so saving writes back
      what it holds; an incident the table does not hold affects no row and
      the save throws. */
  method UpdateAsync(db: Database, e: PartitionEvent) returns (r: Outcome)
    ensures r.Pass? <==> e in db.events
    ensures r.Fail? ==> r == Fail(NoRowAffected)
  {
    if e in db.events {
      r := Pass;
    } else {
      r := Fail(NoRowAffected);
    }
  }
}
