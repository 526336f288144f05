/** Turns the simulator's flag and the stored incidents into a partition
    status, answers reachability, registers incidents and raises the
    detected / healed notifications. */
module Coordination {
  import opened Common
  import opened Partitions
  import opened Store
  import opened Simulation
  import opened PartitionEventRepository

  /** What a notification carries. */
  datatype PartitionEventArgs = PartitionEventArgs(
    originBidRegion: Region,
    auctionRegion: Region,
    status: PartitionStatus,
    createdAt: int,
    updatedAt: Option<int>,
    isSolved: bool)

  /** A raised notification, in the order raised. */
  datatype Notification = PartitionDetected(args: PartitionEventArgs) | PartitionHealed(args: PartitionEventArgs)

  /** The message of the exception a member access on null throws. */
  const NullReference: string := "Object reference not set to an instance of an object."

  /** The message of the failure for an unreachable region. */
  function NotReachable(region: Region): string {
    "Region " + RegionName(region) + " is not reachable"
  }

  /** The message of the failure for a region without an active incident. */
  function PartitionNotFound(region: Region): string {
    "Partition by Region: " + RegionName(region) + " not found"
  }

  /** The side effect a status change asks for. */
  datatype TrackerEffect =
    | NoEffect
    | RegisterPartition(origin: Region, auctionRegion: Region)
    | AnnounceHeal(origin: Region, auctionRegion: Region)

  /** One status query, decided: what it returns, the remembered status it
      leaves, and the effect it performs. */
  datatype TrackerStep = TrackerStep(result: Result<PartitionStatus>, lastStatus: PartitionStatus, effect: TrackerEffect)

  /** The status tracker as written: on a change it reads the regions of the
      current incident without checking that there is one. */
  function TrackAsWritten(last: PartitionStatus, observed: PartitionStatus, current: Option<PartitionEvent>): TrackerStep {
    if observed == last then TrackerStep(Success(observed), last, NoEffect)
    else if current.None? then TrackerStep(Failure(NullReference), last, NoEffect)
    else
      var origin := current.value.originBidRegion;
      var region := current.value.auctionRegion;
      if observed == Partitioned then TrackerStep(Success(observed), observed, RegisterPartition(origin, region))
      else if last == Partitioned && observed == Healthy then TrackerStep(Success(observed), observed, AnnounceHeal(origin, region))
      else TrackerStep(Success(observed), observed, NoEffect)
  }

  /** The regions a corrected query falls back to without a current
      incident: the enumeration's first member, the value `default` gives an
      enum. That member is `USEast` only under the assumed declaration order
      of `Region`. */
  const FallbackRegion: Region := USEast

  /** The status tracker with the null check: without a current incident the
      regions fall back to `FallbackRegion`. */
  function TrackCorrected(last: PartitionStatus, observed: PartitionStatus, current: Option<PartitionEvent>): TrackerStep {
    if observed == last then TrackerStep(Success(observed), last, NoEffect)
    else
      var origin := if current.Some? then current.value.originBidRegion else FallbackRegion;
      var region := if current.Some? then current.value.auctionRegion else FallbackRegion;
      if observed == Partitioned then TrackerStep(Success(observed), observed, RegisterPartition(origin, region))
      else if last == Partitioned && observed == Healthy then TrackerStep(Success(observed), observed, AnnounceHeal(origin, region))
      else TrackerStep(Success(observed), observed, NoEffect)
  }

  /** `n` status queries in a row on a store and simulator that do not change
      in between: each one starts from the remembered status the previous one
      left. */
  function QueriesAsWritten(last: PartitionStatus, observed: PartitionStatus, current: Option<PartitionEvent>, n: nat): (r: seq<TrackerStep>)
    ensures |r| == n
    decreases n
  {
    if n == 0 then []
    else
      var step := TrackAsWritten(last, observed, current);
      [step] + QueriesAsWritten(step.lastStatus, observed, current, n - 1)
  }

  /** As written, once the status was Partitioned and the incident has been
      healed (no flag, no active incident), every query fails and keeps the
      old remembered status: however often it is asked, the tracker never
      reaches Healthy and never announces the heal. */
  lemma {:induction false} AsWrittenFailsForeverAfterHeal(last: PartitionStatus, n: nat)
    requires last != Healthy
    ensures forall i :: 0 <= i < n ==>
      QueriesAsWritten(last, Healthy, None, n)[i] == TrackerStep(Failure(NullReference), last, NoEffect)
  {
    if n > 0 {
      AsWrittenFailsForeverAfterHeal(last, n - 1);
      var rest := QueriesAsWritten(last, Healthy, None, n - 1);
      assert QueriesAsWritten(last, Healthy, None, n) == [TrackerStep(Failure(NullReference), last, NoEffect)] + rest;
    }
  }

  /** With the null check the tracker never fails, always catches up with the
      observed status, registers on every change to Partitioned and announces
      exactly the Partitioned -> Healthy changes. */
  lemma CorrectedTrackerCatchesUp(last: PartitionStatus, observed: PartitionStatus, current: Option<PartitionEvent>)
    ensures TrackCorrected(last, observed, current).result == Success(observed)
    ensures TrackCorrected(last, observed, current).lastStatus == observed
    ensures TrackCorrected(last, observed, current).effect.RegisterPartition? <==> observed == Partitioned && last != Partitioned
    ensures TrackCorrected(last, observed, current).effect.AnnounceHeal? <==> last == Partitioned && observed == Healthy
  {
  }

  /** The correction changes nothing while an incident is current. */
  lemma CorrectionOnlyAffectsMissingIncident(last: PartitionStatus, observed: PartitionStatus, current: Option<PartitionEvent>)
    ensures current.Some? ==> TrackCorrected(last, observed, current) == TrackAsWritten(last, observed, current)
    ensures current.None? && observed != last ==> TrackAsWritten(last, observed, current).result.Failure?
  {
  }

  /** `after` is `before` with one more incident at its end: Partitioned,
      with the given id and regions, created at `now`. */
  ghost predicate AppendsIncident(before: seq<PartitionEvent>, after: seq<PartitionEvent>, eventId: nat,
                                  originBidRegion: Region, auctionRegion: Region, now: int)
    reads after
  {
    && |after| == |before| + 1
    && after[..|before|] == before
    && after[|before|].id == eventId
    && after[|before|].originBidRegion == originBidRegion
    && after[|before|].auctionRegion == auctionRegion
    && after[|before|].status == Partitioned
    && after[|before|].createdAt == now
  }

  /** The notification a registration raises. */
  function Detected(originBidRegion: Region, auctionRegion: Region, now: int): Notification {
    PartitionDetected(PartitionEventArgs(originBidRegion, auctionRegion, Partitioned, now, None, false))
  }

  /** Appending an active incident for a region with no active incident
      makes it the region's current incident, and keeps at most one active
      incident per region. */
  lemma AppendActiveKeepsAtMostOne(events: seq<PartitionEvent>, e: PartitionEvent)
    requires e.IsActive()
    requires Newest(events, Some(e.auctionRegion)).None?
    ensures Newest(events + [e], Some(e.auctionRegion)) == Some(e)
    ensures AtMostOneActivePerRegion(events) ==> AtMostOneActivePerRegion(events + [e])
  {
    var all := events + [e];
    var found := Newest(all, Some(e.auctionRegion));
    assert e in all;
    assert found.Some?;
    assert found.value in events || found.value == e;
    if AtMostOneActivePerRegion(events) {
      forall i, j | 0 <= i < j < |all| && all[i].IsActive() && all[j].IsActive()
        ensures all[i].auctionRegion != all[j].auctionRegion
      {
        if j == |events| {
          assert all[i] in events;
        }
      }
    }
  }

  /** The switch on the requested status: each status is reached by the
      incident transition of the same name. */
  method Transition(e: PartitionEvent, target: PartitionStatus, now: int)
    modifies e
    ensures e.status == target
    ensures target == Healthy ==> e.endTime == None
    ensures target == Resolved ==> e.endTime == Some(now)
    ensures IsActiveStatus(target) ==> e.endTime == old(e.endTime)
  {
    match target {
      case Healthy => e.ResetToHealthy();
      case Partitioned => e.StartPartition();
      case Reconciling => e.BeginReconciliation();
      case Resolved => e.Resolve(now);
    }
  }

  /** A new incident, already started. */
  method NewIncident(id: nat, originBidRegion: Region, auctionRegion: Region, now: int) returns (e: PartitionEvent)
    ensures fresh(e)
    ensures e.id == id && e.originBidRegion == originBidRegion && e.auctionRegion == auctionRegion
    ensures e.createdAt == now && e.status == Partitioned && e.endTime == None && e.IsActive()
  {
    e := new PartitionEvent(id, originBidRegion, auctionRegion, now);
    e.StartPartition();
  }

  class RegionCoordinator {
    const db: Database
    const simulator: PartitionSimulator
    var lastStatus: PartitionStatus
    var notifications: seq<Notification>

    constructor (db: Database, simulator: PartitionSimulator)
      ensures this.db == db && this.simulator == simulator
      ensures lastStatus == Healthy && notifications == []
    {
      this.db := db;
      this.simulator := simulator;
      lastStatus := Healthy;
      notifications := [];
    }

    /** Ignores the region: reachable exactly when no partition is simulated. */
    predicate IsRegionReachable(region: Region)
      reads simulator
    {
      !simulator.isPartitioned
    }

    /** Runs `operation` only when the region is reachable and returns its
        result unchanged; otherwise fails without running it. */
    function ExecuteInRegion<T>(region: Region, operation: () -> T): (r: Result<T>)
      reads simulator
      ensures r.Success? <==> IsRegionReachable(region)
      ensures r.Success? ==> r.value == operation()
      ensures r.Failure? ==> r.message == NotReachable(region)
    {
      if !IsRegionReachable(region) then Failure(NotReachable(region))
      else Success(operation())
    }

    /** Partitioned while the simulator is partitioned, else the status of the
        newest active incident, else Healthy. */
    function ObservedStatus(): (s: PartitionStatus)
      reads simulator, db`events, db.events
      ensures simulator.isPartitioned ==> s == Partitioned
      ensures !simulator.isPartitioned && GetCurrentPartitionAsync(db).None? ==> s == Healthy
      ensures !simulator.isPartitioned && GetCurrentPartitionAsync(db).Some? ==> s == GetCurrentPartitionAsync(db).value.status
      ensures s == Healthy ==> GetCurrentPartitionAsync(db).None?
    {
      if simulator.isPartitioned then Partitioned
      else match GetCurrentPartitionAsync(db)
        case None => Healthy
        case Some(e) => e.status
    }

    /** Registers an incident for `auctionRegion` unless one is already
        active there, and announces it; idempotent. `eventId` and `now` stand
        for the generated Guid and the clock. `registered` reports which of
        the two happened (the source returns nothing). */
    method AddPartition(originBidRegion: Region, auctionRegion: Region, now: int, eventId: nat)
      returns (registered: bool)
      modifies this, db
      ensures registered <==> old(GetCurrentPartitionByAuctionRegionAsync(db, auctionRegion)).None?
      ensures !registered ==> db.events == old(db.events) && notifications == old(notifications)
      ensures registered ==>
        AppendsIncident(old(db.events), db.events, eventId, originBidRegion, auctionRegion, now) &&
        fresh(db.events[|old(db.events)|]) &&
        notifications == old(notifications) + [Detected(originBidRegion, auctionRegion, now)]
      ensures lastStatus == old(lastStatus)
      ensures db.auctions == old(db.auctions) && db.bids == old(db.bids) && db.sequences == old(db.sequences)
    {
      var partition := GetCurrentPartitionByAuctionRegionAsync(db, auctionRegion);
      registered := partition.None?;
      if registered {
        ghost var before := db.events;
        var e := NewIncident(eventId, originBidRegion, auctionRegion, now);
        var _ := PartitionEventRepository.AddAsync(db, e);
        notifications := notifications + [Detected(e.originBidRegion, e.auctionRegion, e.createdAt)];
        assert db.events == before + [e];
      }
    }

    /** Drives the active incident of `auctionRegion` to `target` and saves
        it; fails when the region has no active incident. */
    method UpdatePartitionByAuctionRegion(auctionRegion: Region, target: PartitionStatus, now: int)
      returns (r: Result<PartitionEvent>)
      modifies db.events
      ensures r.Failure? <==> old(GetCurrentPartitionByAuctionRegionAsync(db, auctionRegion)).None?
      ensures r.Failure? ==> r.message == PartitionNotFound(auctionRegion) && unchanged(db.events)
      ensures r.Success? ==> r.value == old(GetCurrentPartitionByAuctionRegionAsync(db, auctionRegion)).value
      ensures r.Success? ==> r.value.status == target
      ensures r.Success? && target == Healthy ==> r.value.endTime == None
      ensures r.Success? && target == Resolved ==> r.value.endTime == Some(now)
      ensures r.Success? && IsActiveStatus(target) ==> r.value.endTime == old(r.value.endTime)
      ensures forall e :: e in db.events && (r.Failure? || e != r.value) ==>
        e.status == old(e.status) && e.endTime == old(e.endTime)
      ensures unchanged(db.auctions.Values)
    {
      var partition := GetCurrentPartitionByAuctionRegionAsync(db, auctionRegion);
      if partition.None? {
        return Failure(PartitionNotFound(auctionRegion));
      }
      var e := partition.value;
      // An incident is not an auction.
      ghost var incident: object := e;
      assert forall a :: a in db.auctions.Values ==> (a as object) != incident;
      Transition(e, target, now);
      var _ := PartitionEventRepository.UpdateAsync(db, e);
      r := Success(e);
    }

    /** The status query as written. `now` and `eventId` are only used by
        the registration it may trigger. */
    method GetPartitionStatusAsWritten(now: int, eventId: nat) returns (r: Result<PartitionStatus>)
      modifies this, db
      ensures var step := TrackAsWritten(old(lastStatus), old(ObservedStatus()), old(GetCurrentPartitionAsync(db)));
        r == step.result && lastStatus == step.lastStatus
      ensures db.events == old(db.events) && notifications == old(notifications)
      ensures db.auctions == old(db.auctions) && db.bids == old(db.bids) && db.sequences == old(db.sequences)
    {
      var current := ObservedStatus();
      if current != lastStatus {
        var partition := GetCurrentPartitionAsync(db);
        if partition.None? {
          return Failure(NullReference);
        }
        var e := partition.value;
        if current == Partitioned {
          var registered := AddPartition(e.originBidRegion, e.auctionRegion, now, eventId);
          assert !registered;
        } else if lastStatus == Partitioned && current == Healthy {
          assert false;
        }
        lastStatus := current;
      }
      r := Success(current);
    }

    /** The status query with the null check. A current incident would make
        the observed status active, so the heal branch never finds one to
        resolve; it announces the heal with the fallback regions. */
    method GetPartitionStatus(now: int, eventId: nat) returns (r: Result<PartitionStatus>)
      modifies this, db
      ensures var step := TrackCorrected(old(lastStatus), old(ObservedStatus()), old(GetCurrentPartitionAsync(db)));
        r == step.result && lastStatus == step.lastStatus
      ensures r == Success(old(ObservedStatus())) && lastStatus == old(ObservedStatus())
      ensures old(lastStatus) == old(ObservedStatus()) ==> db.events == old(db.events) && notifications == old(notifications)
      ensures var step := TrackCorrected(old(lastStatus), old(ObservedStatus()), old(GetCurrentPartitionAsync(db)));
        match step.effect
        case NoEffect =>
          db.events == old(db.events) && notifications == old(notifications)
        case RegisterPartition(origin, region) =>
          if old(GetCurrentPartitionByAuctionRegionAsync(db, region)).None? then
            AppendsIncident(old(db.events), db.events, eventId, origin, region, now) &&
            notifications == old(notifications) + [Detected(origin, region, now)]
          else
            db.events == old(db.events) && notifications == old(notifications)
        case AnnounceHeal(origin, region) =>
          db.events == old(db.events) &&
          notifications == old(notifications) + [PartitionHealed(PartitionEventArgs(origin, region, Healthy, now, None, true))]
      ensures db.auctions == old(db.auctions) && db.bids == old(db.bids) && db.sequences == old(db.sequences)
    {
      var current := ObservedStatus();
      if current != lastStatus {
        var partition := GetCurrentPartitionAsync(db);
        var origin := if partition.Some? then partition.value.originBidRegion else FallbackRegion;
        var region := if partition.Some? then partition.value.auctionRegion else FallbackRegion;
        if current == Partitioned {
          var _ := AddPartition(origin, region, now, eventId);
        } else if lastStatus == Partitioned && current == Healthy {
          if partition.Some? {
            assert false;
          }
          notifications := notifications +
            [PartitionHealed(PartitionEventArgs(origin, region, current, now, None, true))];
        }
        lastStatus := current;
      }
      r := Success(current);
    }
  }

  /** Even with the null check, a heal is announced only once no incident
      is active anywhere. It then names the fallback regions, and that region
      has no active incident either, so a handler that updates the region's
      incident finds none to update. */
  lemma AnnouncedHealFindsNoIncident(c: RegionCoordinator, last: PartitionStatus)
    ensures var step := TrackCorrected(last, c.ObservedStatus(), GetCurrentPartitionAsync(c.db));
      step.effect.AnnounceHeal? ==>
        step.effect == AnnounceHeal(FallbackRegion, FallbackRegion) &&
        GetCurrentPartitionByAuctionRegionAsync(c.db, FallbackRegion).None?
  {
  }
}
