/** The orchestrator. A bid is placed with strong consistency in the
    auction's own region when that region is reachable (CP), queued for
    later reconciliation when it is cut off from the bidder's region (AP),
    and refused when the bidder's own region is partitioned. After a heal the
    paused auctions are reconciled: their stored and queued bids are merged,
    resolved per region and then globally, and the auction is settled. */
module Service {
  import opened Common
  import opened Sorting
  import opened Bids
  import opened Auctions
  import opened Partitions
  import opened Store
  import opened Simulation
  import opened Coordination
  import opened ConflictResolution
  import opened BidOrdering
  import BidRepository
  import AuctionRepository
  import PartitionEventRepository

  /** How fresh a read must be. */
  datatype ConsistencyLevel = Strong | Eventual

  /** What a placement reports: success, a message and the bid it created. */
  datatype BidResult = BidResult(success: bool, message: string, bid: Option<Bid>)

  /** What a reconciliation reports. */
  datatype ReconciliationResult = ReconciliationResult(
    success: bool,
    bidsReconciled: nat,
    winnerId: Option<nat>,
    price: Option<int>)

  /** The result of a reconciliation that does not take place. */
  const NotReconciled: ReconciliationResult := ReconciliationResult(false, 0, None, None)

  function NotActive(state: AuctionState): string {
    "Auction is not active. Current state: " + StateName(state)
  }

  const AuctionEnded: string := "Auction ended successfully"
  const CurrentRegionPartitioned: string := "Current region is partitioned. Cannot place bid at this time."
  const AuctionRegionPartitioned: string := "Auction region is partitioned. Cannot place bid at this time."
  const BidQueued: string := "Bid queued for reconciliation after partition heals"
  const BidPlaced: string := "Bid placed successfully"

  /** The message a placement reports when something on its way throws. */
  function PlaceBidFailed(auctionId: nat, message: string): string {
    "Failed to place bid for Auction " + NatToString(auctionId) + ": " + message
  }

  /** The deadline check; `now` is the clock read in the time zone of the
      auction's region. */
  predicate PastDue(auction: Auction, now: int) {
    auction.endTime < now
  }

  /** The AP condition: the auction's region is cut off and the bid comes
      from elsewhere. */
  predicate PartitionedElsewhere(isPartitioned: bool, auctionRegion: Region, currentRegion: Region) {
    isPartitioned && auctionRegion != currentRegion
  }

  /** The CP refusal condition: the auction's region is cut off and the bid
      comes from that same region. */
  predicate PartitionedHere(isPartitioned: bool, auctionRegion: Region, currentRegion: Region) {
    isPartitioned && auctionRegion == currentRegion
  }

  /** The branches a placement takes once the auction is known to be Active
      and not past due. */
  datatype Route = StatusFailed(message: string) | CurrentRegionDown | Queue | RegionDown | InRegion

  /** The branch chosen from the coordinator's status answer, its
      reachability answer for the auction's region and the bidder's region.
      The status is looked at first. */
  function RouteOf(status: Result<PartitionStatus>, reachable: bool, auctionRegion: Region, currentRegion: Region): (r: Route)
    ensures r.StatusFailed? <==> status.Failure?
    ensures r == CurrentRegionDown <==> status == Success(Partitioned)
    ensures r == InRegion <==> status.Success? && status.value != Partitioned && reachable
    ensures r == Queue ==> !reachable && auctionRegion != currentRegion
    ensures r == RegionDown ==> !reachable && auctionRegion == currentRegion
  {
    if status.Failure? then StatusFailed(status.message)
    else if status.value == Partitioned then CurrentRegionDown
    else if PartitionedElsewhere(!reachable, auctionRegion, currentRegion) then Queue
    else if PartitionedHere(!reachable, auctionRegion, currentRegion) then RegionDown
    else InRegion
  }

  /** What a placement on an auction found Active and not past due yields on
      `route`: its result, and the auction's view `after` it given its view
      `before` it. Only the queue and in-region routes create a bid. The
      queue route only pauses the auction; the in-region route takes the bid
      iff it raises the price, and then the bid becomes price and winner,
      is appended, and the version steps once. */
  predicate RouteOutcome(route: Route, r: BidResult, auctionId: nat, bidderId: nat, amount: int,
                         before: AuctionView, after: AuctionView)
  {
    match route
    case StatusFailed(message) => r == BidResult(false, PlaceBidFailed(auctionId, message), None) && after == before
    case CurrentRegionDown => r == BidResult(false, CurrentRegionPartitioned, None) && after == before
    case RegionDown => r == BidResult(false, AuctionRegionPartitioned, None) && after == before
    case Queue => r.success && r.message == BidQueued && r.bid.Some? && after == before.(state := Paused)
    case InRegion =>
      r.bid.Some? && (r.success <==> amount > before.currentPrice) &&
      if r.success then
        r.message == BidPlaced &&
        after == before.(currentPrice := amount, winningBidderId := Some(bidderId), version := before.version + 1,
                         bids := before.bids + [r.bid.value])
      else
        r.message == AmountTooLow(before.currentPrice) && after == before
  }

  /** With the coordinator's own answers the AP and CP-refusal branches are
      never taken: both answers come from the same simulator flag, and a
      raised flag already makes the status Partitioned. This holds for the
      status query as written (which may fail instead) and corrected. */
  lemma RealCoordinatorNeverQueues(c: RegionCoordinator, status: Result<PartitionStatus>,
                                   auctionRegion: Region, currentRegion: Region)
    requires status.Success? ==> status.value == c.ObservedStatus()
    ensures RouteOf(status, c.IsRegionReachable(auctionRegion), auctionRegion, currentRegion) != Queue
    ensures RouteOf(status, c.IsRegionReachable(auctionRegion), auctionRegion, currentRegion) != RegionDown
  {
  }

  /** The merged list reconciliation works on: the auction's loaded bids
      followed by the queued ones, ordered by creation time, then sequence.
      Nothing is deduplicated. */
  function MergeForReconciliation(loaded: seq<Bid>, queued: seq<Bid>): (r: seq<Bid>)
    ensures |r| == |loaded| + |queued|
    ensures multiset(r) == multiset(loaded) + multiset(queued)
    ensures forall b :: b in r ==> b in loaded || b in queued
    ensures forall b :: b in loaded ==> b in r
    ensures forall b :: b in queued ==> b in r
    ensures SortedBy(r, TimeThenSequence)
  {
    SortBy(loaded + queued, TimeThenSequence)
  }

  /** The report of a successful reconciliation of `count` bids: the
      winner, if any, gives bidder and price. */
  function Report(count: nat, winner: Option<Bid>): ReconciliationResult {
    ReconciliationResult(true, count,
      if winner.Some? then Some(winner.value.bidderId) else None,
      if winner.Some? then Some(winner.value.amount) else None)
  }

  /** What a reconciliation with queued bids reports: every merged bid
      counts, and the reconciled winner of the merged list is reported. */
  function ReconciledResult(loaded: seq<Bid>, queued: seq<Bid>): ReconciliationResult {
    Report(|loaded| + |queued|, ReconciledWinner(MergeForReconciliation(loaded, queued)))
  }

  /** Reconciliation can lower the price. An auction holds two bids of one
      region, an early one and a later, higher one (the price its ratchet
      reached), and a third bid of that region queued during the partition.
      Reconciliation reports the early bid's lower amount as the price, which
      is then written to the auction. */
  lemma ReconciliationCanLowerPrice(early: Bid, late: Bid, queued: Bid)
    requires early != late && early != queued && late != queued
    requires early.originRegion == late.originRegion == queued.originRegion
    requires early.createdAt < late.createdAt && early.createdAt < queued.createdAt
    requires early.amount < late.amount
    ensures ReconciledResult([early, late, queued], [queued]).price == Some(early.amount)
    ensures ReconciledResult([early, late, queued], [queued]).price.value < late.amount
  {
    var merged: seq<Bid> := MergeForReconciliation([early, late, queued], [queued]);
    assert multiset(merged) == multiset{early, late, queued, queued};
    EarliestOfOneRegionWins(merged, early);
  }

  /** A queued bid is also one of the auction's stored bids, so the merged
      list holds it twice and it can never come out of reconciliation
      accepted, let alone win. */
  lemma QueuedBidsNeverWin(db: Database, auctionId: nat, deadline: int, b: Bid)
    requires b in BidRepository.GetBidsMadeDuringPartitionWithinAuctionDeadline(db, auctionId, deadline)
    ensures var merged := MergeForReconciliation(BidRepository.GetByAuctionId(db, auctionId),
                                                 BidRepository.GetBidsMadeDuringPartitionWithinAuctionDeadline(db, auctionId, deadline));
      multiset(merged)[b] >= 2 && !SurvivesRegionalStage(merged, b) && ReconciledWinner(merged) != Some(b)
  {
    var loaded := BidRepository.GetByAuctionId(db, auctionId);
    var queued := BidRepository.GetBidsMadeDuringPartitionWithinAuctionDeadline(db, auctionId, deadline);
    assert b in loaded;
    assert b in multiset(loaded) && b in multiset(queued);
  }

  /** `b` carries the outcome of its region's stage on `allBids`: accepted
      exactly when it survives, otherwise rejected with its region's reason. */
  predicate RegionallyResolved(allBids: seq<Bid>, b: Bid)
    reads b
  {
    (b.isAccepted <==> SurvivesRegionalStage(allBids, b)) &&
    b.rejectionReason == if b.isAccepted then "" else LostInRegion(b.originRegion)
  }

  /** The regional stage for every region, in enum order. A bid ends
      accepted exactly when it survives its region's stage. */
  method ResolveByRegion(allBids: seq<Bid>)
    modifies allBids
    ensures forall b :: b in allBids ==> RegionallyResolved(allBids, b)
  {
    for i := 0 to |AllRegions|
      invariant forall b :: b in allBids && RegionIndex(b.originRegion) < i ==> RegionallyResolved(allBids, b)
    {
      ResolveConflictingBids(allBids, AllRegions[i]);
    }
  }

  /** Both stages on the merged list: afterwards exactly the reconciled
      winner is accepted; every other bid carries the reason of the stage it
      lost. */
  method ResolveAndPickWinner(allBids: seq<Bid>) returns (winner: Option<Bid>)
    modifies allBids
    ensures winner == ReconciledWinner(allBids)
    ensures forall b :: b in allBids ==> ReconciledOutcome(allBids, b)
  {
    ResolveByRegion(allBids);
    AcceptedBidsMatchFilter(allBids, (b: Bid) => SurvivesRegionalStage(allBids, b));
    label resolved:
    winner := DetermineFinalWinner(allBids);
    forall b | b in allBids
      ensures ReconciledOutcome(allBids, b)
    {
      assert old@resolved(RegionallyResolved(allBids, b));
    }
  }

  /** `b` carries the outcome of reconciling `merged`: accepted exactly when
      it is the reconciled winner; otherwise rejected with the reason of the
      stage it lost, the global one when it survived its region. */
  predicate ReconciledOutcome(merged: seq<Bid>, b: Bid)
    reads b
  {
    (b.isAccepted <==> ReconciledWinner(merged) == Some(b)) &&
    b.rejectionReason == if b.isAccepted then ""
                         else if SurvivesRegionalStage(merged, b) then LostGlobally
                         else LostInRegion(b.originRegion)
  }

  /** Every bid of `bids` carries the outcome of reconciling `merged`. */
  predicate AllReconciled(merged: seq<Bid>, bids: seq<Bid>)
    reads bids
  {
    forall b :: b in bids ==> ReconciledOutcome(merged, b)
  }

  /** Ends a past-due auction, resumes any other. On a Paused auction
      exactly one of the two takes effect. */
  method Settle(auction: Auction, now: int)
    modifies auction
    ensures old(auction.state) == Paused ==> auction.state == if PastDue(auction, now) then Ended else Active
    ensures auction.currentPrice == old(auction.currentPrice) && auction.winningBidderId == old(auction.winningBidderId)
    ensures auction.version == old(auction.version) && auction.bids == old(auction.bids)
  {
    if PastDue(auction, now) {
      var _ := auction.End();
    } else {
      var _ := auction.Resume();
    }
  }

  /** The resolution half of a reconciliation: the loaded bids and the
      queued bids are merged and resolved, and exactly the reconciled winner
      of the merged list comes out accepted. */
  method ResolveMerged(loaded: seq<Bid>, queued: seq<Bid>) returns (winner: Option<Bid>)
    modifies loaded, queued
    ensures winner == ReconciledWinner(MergeForReconciliation(loaded, queued))
    ensures AllReconciled(MergeForReconciliation(loaded, queued), loaded)
    ensures AllReconciled(MergeForReconciliation(loaded, queued), queued)
  {
    var merged := MergeForReconciliation(loaded, queued);
    assert forall i :: 0 <= i < |merged| ==> merged[i] in loaded || merged[i] in queued;
    winner := ResolveAndPickWinner(merged);
    forall b | b in loaded || b in queued
      ensures ReconciledOutcome(merged, b)
    {
      assert b in multiset(merged);
    }
    assert AllReconciled(merged, loaded) && AllReconciled(merged, queued);
  }

  /** What a reconciliation leaves on a formerly Paused auction: it is ended
      when past due and active otherwise; a reported price and winner are
      the auction's, and the version moves on exactly when a winner of
      merged bids was written. */
  ghost predicate Settled(auction: Auction, oldPrice: int, oldWinner: Option<nat>, oldVersion: int,
                          r: ReconciliationResult, now: int)
    reads auction
  {
    && auction.state == (if PastDue(auction, now) then Ended else Active)
    && (r.price.Some? ==> auction.currentPrice == r.price.value && auction.winningBidderId == r.winnerId)
    && (r.price.None? ==> auction.currentPrice == oldPrice && auction.winningBidderId == oldWinner)
    && auction.version == oldVersion + (if r.price.Some? && r.bidsReconciled > 0 then 1 else 0)
  }

  /** The whole outcome of reconciling a formerly Paused auction whose
      loaded bids were `loaded` and queued bids `queued`: the report,
      the settled auction, and, when bids were queued, every bid of both
      lists resolved against the merged list. */
  ghost predicate Reconciled(auction: Auction, loaded: seq<Bid>, queued: seq<Bid>, oldPrice: int,
                             oldWinner: Option<nat>, oldVersion: int, r: ReconciliationResult, now: int)
    reads auction, loaded, queued
  {
    && auction.bids == loaded
    && r == (if queued == [] then ReconciliationResult(true, 0, oldWinner, Some(oldPrice))
             else ReconciledResult(loaded, queued))
    && Settled(auction, oldPrice, oldWinner, oldVersion, r, now)
    && (queued != [] ==> AllReconciled(MergeForReconciliation(loaded, queued), loaded) &&
                         AllReconciled(MergeForReconciliation(loaded, queued), queued))
  }

  /** Writes a reconciliation's reported winner, if any, to the auction as
      price and winner (with no check against the current price) and
      settles the auction. No bid is touched; `bids` names the ones the
      caller keeps track of. */
  method ApplyReconciled(auction: Auction, r: ReconciliationResult, now: int, ghost bids: seq<Bid>)
    requires r.bidsReconciled > 0 && (r.price.Some? <==> r.winnerId.Some?)
    modifies auction
    ensures old(auction.state) == Paused ==>
      Settled(auction, old(auction.currentPrice), old(auction.winningBidderId), old(auction.version), r, now)
    ensures auction.bids == old(auction.bids)
    ensures unchanged(bids)
  {
    ghost var bidObjects: seq<object> := bids;
    assert auction !in bidObjects;
    if r.price.Some? {
      auction.UpdateWinningBid(r.price.value, r.winnerId.value);
    }
    Settle(auction, now);
  }

  /** The partition side of a queued bid: unless the auction's region
      already has an active incident, a new Partitioned incident from the
      bidder's region is stored and announced; otherwise nothing changes. */
  ghost predicate RegistersPartition(hadIncident: bool, before: seq<PartitionEvent>, after: seq<PartitionEvent>,
                                     sentBefore: seq<Notification>, sentAfter: seq<Notification>,
                                     eventId: nat, originBidRegion: Region, auctionRegion: Region, now: int)
    reads after
  {
    if hadIncident then after == before && sentAfter == sentBefore
    else AppendsIncident(before, after, eventId, originBidRegion, auctionRegion, now) &&
         sentAfter == sentBefore + [Detected(originBidRegion, auctionRegion, now)]
  }

  /** What every stored auction looks like, by id. */
  ghost function Views(auctions: map<nat, Auction>): (r: map<nat, AuctionView>)
    reads auctions.Values
    ensures r.Keys == auctions.Keys
  {
    map k | k in auctions :: auctions[k].View()
  }

  /** What a heal of `auctionRegion` leaves, against the auctions' views
      `before` it: each auction of the region that was Paused is ended when
      past due and resumed otherwise; every other auction is as it was. */
  ghost predicate HealedRegion(auctions: map<nat, Auction>, before: map<nat, AuctionView>,
                               auctionRegion: Region, now: int)
    reads auctions.Values
  {
    forall k :: k in auctions && k in before ==>
      if auctions[k].region == auctionRegion && before[k].state == Paused
      then auctions[k].state == (if PastDue(auctions[k], now) then Ended else Active)
      else auctions[k].View() == before[k]
  }
  /** The stored bids of the Paused auctions of `region`: the only bids a
      heal of `region` may change. */
  ghost function HealedBids(db: Database, region: Region): set<Bid>
    reads db, db.auctions.Values
  {
    set b | b in db.bids && b.auctionId in db.auctions &&
            db.auctions[b.auctionId].region == region && db.auctions[b.auctionId].state == Paused
  }
  /** What each stored bid says about its outcome: accepted, reason and
      partition flag, the only fields a bid can change. */
  ghost function Outcomes(bids: seq<Bid>): (r: map<Bid, (bool, string, bool)>)
    reads bids
    ensures r.Keys == set b | b in bids
  {
    map b | b in bids :: (b.isAccepted, b.rejectionReason, b.isDuringPartition)
  }

  /** The status and end time of each stored incident, the only fields an
      incident can change. */
  ghost function Statuses(events: seq<PartitionEvent>): (r: map<PartitionEvent, (PartitionStatus, Option<int>)>)
    reads events
    ensures r.Keys == set e | e in events
  {
    map e | e in events :: (e.status, e.endTime)
  }

  /** `after` agrees with `before` everywhere except on `changed`. */
  predicate KeptOutside<K, V(==)>(after: map<K, V>, before: map<K, V>, changed: set<K>) {
    after.Keys == before.Keys && forall k :: k in after && k !in changed ==> after[k] == before[k]
  }

  class AuctionService {
    const db: Database
    const coordinator: RegionCoordinator

    /** The service and its coordinator share one store, and every auction
        is stored under its own id. */
    ghost predicate Valid()
      reads db`auctions
    {
      coordinator.db == db && db.Valid()
    }

    /** The coordinator it subscribes to is built over the same store. */
    constructor (db: Database, simulator: PartitionSimulator)
      requires db.Valid()
      ensures this.db == db && coordinator.simulator == simulator
      ensures fresh(coordinator) && coordinator.lastStatus == Healthy && coordinator.notifications == []
      ensures Valid()
    {
      this.db := db;
      coordinator := new RegionCoordinator(db, simulator);
    }

    /** Builds the auction, starts it and stores it with its counter row.
        The fresh auction is a Draft, so starting it always succeeds: the
        stored auction is Active at its starting price. An id already in use
        makes the save throw. */
    method CreateAuction(id: nat, vehicleId: nat, region: Region, startingPrice: int,
                         reservePrice: Option<int>, startTime: int, endTime: int) returns (r: Result<Auction>)
      requires Valid()
      modifies db
      ensures Valid()
      ensures r.Success? <==> id !in old(db.auctions) && id !in old(db.sequences)
      ensures r.Failure? ==> r.message == AuctionRepository.AlreadyTracked
      ensures r.Failure? ==> db.auctions == old(db.auctions) && db.sequences == old(db.sequences)
      ensures r.Success? ==> fresh(r.value) && r.value.id == id && r.value.region == region && r.value.endTime == endTime
      ensures r.Success? ==> r.value.state == Active && r.value.currentPrice == startingPrice
      ensures r.Success? ==> r.value.winningBidderId == None && r.value.version == 0 && r.value.bids == []
      ensures r.Success? ==> db.auctions == old(db.auctions)[id := r.value]
      ensures r.Success? ==> db.sequences == old(db.sequences)[id := 0]
      ensures db.bids == old(db.bids) && db.events == old(db.events)
    {
      var auction := new Auction(id, vehicleId, region, startingPrice, reservePrice, startTime, endTime);
      var _ := auction.Start();
      var stored := AuctionRepository.CreateAsync(db, auction);
      if stored.Failure? {
        return Failure(stored.message);
      }
      r := Success(auction);
    }

    /** A strong read reloads the auction's bid list from the store; an
        eventual read returns the auction as it stands, bid list included. */
    method GetAuction(auctionId: nat, consistency: ConsistencyLevel) returns (r: Option<Auction>)
      modifies db.AuctionObject(auctionId)
      ensures r.None? <==> auctionId !in db.auctions
      ensures r.Some? ==> r.value == db.auctions[auctionId]
      ensures r.Some? && consistency == Strong ==> r.value.bids == BidRepository.GetByAuctionId(db, auctionId)
      ensures r.Some? && consistency == Eventual ==> r.value.bids == old(r.value.bids)
      ensures r.Some? ==> r.value.state == old(r.value.state) && r.value.currentPrice == old(r.value.currentPrice)
      ensures r.Some? ==> r.value.winningBidderId == old(r.value.winningBidderId) && r.value.version == old(r.value.version)
    {
      if consistency == Strong {
        r := AuctionRepository.GetWithBidsAsync(db, auctionId);
      } else {
        r := AuctionRepository.GetByIdAsync(db, auctionId);
      }
    }

    /** The CP path, run through the region guard. Unreachable: fails
        without consuming anything. Otherwise one new bid takes the next
        sequence, is validated against the stored auction, then offered to
        `auction`'s ratchet, and is stored accepted or rejected. */
    method PlaceInRegion(auctionId: nat, auction: Auction, bidderId: nat, amount: int, currentRegion: Region,
                         reachable: bool, now: int, bidId: nat) returns (r: Result<BidResult>)
      requires db.Valid() && (auctionId in db.auctions ==> db.auctions[auctionId] == auction)
      modifies db, auction
      ensures db.auctions == old(db.auctions) && db.events == old(db.events)
      ensures r.Failure? <==> !reachable
      ensures r.Failure? ==> r.message == NotReachable(auction.region)
      ensures r.Failure? ==> db.bids == old(db.bids) && db.sequences == old(db.sequences) && auction.View() == old(auction.View())
      ensures r.Success? ==> r.value.bid.Some? && fresh(r.value.bid.value)
      ensures r.Success? ==> var b := r.value.bid.value;
        b.id == bidId && b.auctionId == auctionId && b.bidderId == bidderId && b.amount == amount &&
        b.originRegion == currentRegion && b.createdAt == now && !b.isDuringPartition &&
        b.sequence == BidRepository.CurrentSequence(old(db.sequences), auctionId) + 1 &&
        db.bids == old(db.bids) + [b] && db.sequences == BidRepository.Advance(old(db.sequences), auctionId)
      ensures r.Success? ==> var b := r.value.bid.value;
        (b.isAccepted <==>
          auctionId in old(db.auctions) && amount > old(db.auctions[auctionId].currentPrice) &&
          old(auction.state) == Active && amount > old(auction.currentPrice)) &&
        r.value.success == b.isAccepted &&
        b.rejectionReason == (if b.isAccepted then "" else r.value.message)
      ensures r.Success? && auctionId !in old(db.auctions) ==> r.value.message == AuctionNotFound
      ensures r.Success? && auctionId in old(db.auctions) && amount <= old(db.auctions[auctionId].currentPrice) ==>
        r.value.message == AmountTooLow(old(db.auctions[auctionId].currentPrice))
      ensures r.Success? && auctionId in old(db.auctions) && amount > old(db.auctions[auctionId].currentPrice) ==>
        r.value.message == if r.value.success then BidPlaced else AmountNotAbovePrice
      ensures r.Success? && r.value.success ==>
        auction.currentPrice == amount && auction.winningBidderId == Some(bidderId) &&
        auction.bids == old(auction.bids) + [r.value.bid.value] && auction.version == old(auction.version) + 1 &&
        auction.state == old(auction.state)
      ensures r.Success? && !r.value.success ==> auction.View() == old(auction.View())
    {
      if !reachable {
        return Failure(NotReachable(auction.region));
      }
      var sequence := GetNextBidSequence(db, auctionId);
      var bid := new Bid(bidId, auctionId, bidderId, amount, currentRegion, sequence, now);
      var acceptance := ValidateBidOrder(db, auctionId, bid);
      if !acceptance.isValid {
        bid.Reject(acceptance.reason);
        var _ := BidRepository.AddAsync(db, bid);
        return Success(BidResult(false, acceptance.reason, Some(bid)));
      }
      var placed := auction.TryPlaceBid(bid);
      if !placed {
        bid.Reject(AmountNotAbovePrice);
        var _ := BidRepository.AddAsync(db, bid);
        return Success(BidResult(false, AmountNotAbovePrice, Some(bid)));
      }
      bid.Accept();
      var _ := BidRepository.AddAsync(db, bid);
      var saved := AuctionRepository.UpdateAsync(db, auction);
      assert saved == Success(true);
      r := Success(BidResult(true, BidPlaced, Some(bid)));
    }

    /** The AP path. One new bid takes the next sequence; the auction is
        paused (which throws unless it is Active, after the sequence was
        taken); the bid is flagged as placed during a partition and stored,
        and the partition is registered for the auction's region. The price
        is not touched. */
    method HandlePartitionedBid(auction: Auction, bidderId: nat, amount: int, currentRegion: Region,
                                now: int, bidId: nat, eventId: nat) returns (r: Result<BidResult>)
      requires Valid()
      modifies db, auction, coordinator
      ensures Valid()
      ensures db.auctions == old(db.auctions)
      ensures db.sequences == BidRepository.Advance(old(db.sequences), auction.id)
      ensures r.Failure? <==> old(auction.state) != Active
      ensures r.Failure? ==> r.message == PauseError
      ensures r.Failure? ==> db.bids == old(db.bids) && db.events == old(db.events) && auction.View() == old(auction.View())
      ensures r.Success? ==> r.value.success && r.value.message == BidQueued && r.value.bid.Some? && fresh(r.value.bid.value)
      ensures r.Success? ==> var b := r.value.bid.value;
        b.id == bidId && b.auctionId == auction.id && b.bidderId == bidderId && b.amount == amount &&
        b.originRegion == currentRegion && b.createdAt == now &&
        b.sequence == BidRepository.CurrentSequence(old(db.sequences), auction.id) + 1 &&
        b.isDuringPartition && !b.isAccepted && b.rejectionReason == "" &&
        db.bids == old(db.bids) + [b]
      ensures r.Success? ==> auction.View() == old(auction.View()).(state := Paused)
      ensures r.Success? ==>
        RegistersPartition(old(PartitionEventRepository.GetCurrentPartitionByAuctionRegionAsync(db, auction.region)).Some?,
                           old(db.events), db.events, old(coordinator.notifications), coordinator.notifications,
                           eventId, currentRegion, auction.region, now)
      ensures r.Failure? ==> coordinator.notifications == old(coordinator.notifications)
      ensures coordinator.lastStatus == old(coordinator.lastStatus)
    {
      var queued := QueueBid(auction, bidderId, amount, currentRegion, now, bidId);
      if queued.Failure? {
        return Failure(queued.message);
      }
      // Queueing the bid touched no incident.
      assert PartitionEventRepository.GetCurrentPartitionByAuctionRegionAsync(db, auction.region) ==
             old(PartitionEventRepository.GetCurrentPartitionByAuctionRegionAsync(db, auction.region));
      var _ := coordinator.AddPartition(currentRegion, auction.region, now, eventId);
      r := Success(BidResult(true, BidQueued, Some(queued.value)));
    }

    /** The bid-side half of the AP path: everything up to registering the
        partition. */
    method QueueBid(auction: Auction, bidderId: nat, amount: int, currentRegion: Region,
                    now: int, bidId: nat) returns (r: Result<Bid>)
      modifies db, auction
      ensures db.auctions == old(db.auctions) && db.events == old(db.events)
      ensures db.sequences == BidRepository.Advance(old(db.sequences), auction.id)
      ensures r.Failure? <==> old(auction.state) != Active
      ensures r.Failure? ==> r.message == PauseError && db.bids == old(db.bids) && auction.View() == old(auction.View())
      ensures r.Success? ==> fresh(r.value)
      ensures r.Success? ==> var b := r.value;
        b.id == bidId && b.auctionId == auction.id && b.bidderId == bidderId && b.amount == amount &&
        b.originRegion == currentRegion && b.createdAt == now &&
        b.sequence == BidRepository.CurrentSequence(old(db.sequences), auction.id) + 1 &&
        b.isDuringPartition && !b.isAccepted && b.rejectionReason == "" &&
        db.bids == old(db.bids) + [b]
      ensures r.Success? ==> auction.View() == old(auction.View()).(state := Paused)
    {
      var sequence := GetNextBidSequence(db, auction.id);
      var bid := new Bid(bidId, auction.id, bidderId, amount, currentRegion, sequence, now);
      var paused := auction.Pause();
      if paused.Fail? {
        return Failure(paused.message);
      }
      bid.MarkAsDuringPartition();
      var _ := BidRepository.AddAsync(db, bid);
      r := Success(bid);
    }
  
    /** Whether a placement gets past the early checks: the auction exists,
        is Active and is not past due. */
    ghost predicate Proceeds(auctionId: nat, now: int)
      reads db`auctions, db.auctions.Values
    {
      auctionId in db.auctions && db.auctions[auctionId].state == Active && !PastDue(db.auctions[auctionId], now)
    }

    /** The placement decision tree. `status` and `reachable` are the
        coordinator's answers (a failed status query is the exception it
        threw), `currentRegion` is the bidder's region, `now` the clock in
        the auction's time zone, `bidId` and `eventId` the generated Guids.
        Only the AP and CP paths create a bid and take a sequence number. */
    method PlaceBid(auctionId: nat, bidderId: nat, amount: int, status: Result<PartitionStatus>, reachable: bool,
                    currentRegion: Region, now: int, bidId: nat, eventId: nat) returns (r: BidResult)
      requires Valid()
      modifies db, db.AuctionObject(auctionId), coordinator
      ensures Valid() && db.auctions == old(db.auctions)
      ensures auctionId !in db.auctions ==> r == BidResult(false, AuctionNotFound, None)
      ensures auctionId in db.auctions && old(db.auctions[auctionId].state) != Active ==>
        r == BidResult(false, NotActive(old(db.auctions[auctionId].state)), None)
      ensures auctionId in db.auctions && old(db.auctions[auctionId].state) == Active && PastDue(db.auctions[auctionId], now) ==>
        r == BidResult(true, AuctionEnded, None) && db.auctions[auctionId].state == Ended
      ensures old(Proceeds(auctionId, now)) ==>
        var a := db.auctions[auctionId];
        RouteOutcome(RouteOf(status, reachable, a.region, currentRegion), r, auctionId, bidderId, amount,
                     old(a.View()).(bids := old(BidRepository.GetByAuctionId(db, auctionId))), a.View())
      ensures r.bid.None? ==> db.bids == old(db.bids) && db.sequences == old(db.sequences) && db.events == old(db.events)
      ensures r.bid.None? ==> coordinator.notifications == old(coordinator.notifications)
      ensures coordinator.lastStatus == old(coordinator.lastStatus)
      ensures r.bid.None? && auctionId in db.auctions &&
              !(old(db.auctions[auctionId].state) == Active && PastDue(db.auctions[auctionId], now)) ==>
        db.auctions[auctionId].state == old(db.auctions[auctionId].state)
      ensures r.bid.None? && auctionId in db.auctions ==>
        var a := db.auctions[auctionId];
        a.currentPrice == old(a.currentPrice) && a.winningBidderId == old(a.winningBidderId) &&
        a.version == old(a.version) && a.bids == BidRepository.GetByAuctionId(db, auctionId)
      ensures r.bid.Some? ==> fresh(r.bid.value)
      ensures r.bid.Some? ==> var b := r.bid.value;
        b.id == bidId && b.auctionId == auctionId && b.bidderId == bidderId && b.amount == amount &&
        b.originRegion == currentRegion && b.createdAt == now &&
        b.sequence == BidRepository.CurrentSequence(old(db.sequences), auctionId) + 1 &&
        db.bids == old(db.bids) + [b] && db.sequences == BidRepository.Advance(old(db.sequences), auctionId)
      ensures old(Proceeds(auctionId, now)) && RouteOf(status, reachable, db.auctions[auctionId].region, currentRegion) == Queue ==>
        var a := db.auctions[auctionId];
        r.bid.Some? && r.bid.value.isDuringPartition && !r.bid.value.isAccepted &&
        RegistersPartition(old(PartitionEventRepository.GetCurrentPartitionByAuctionRegionAsync(db, a.region)).Some?,
                           old(db.events), db.events, old(coordinator.notifications), coordinator.notifications,
                           eventId, currentRegion, a.region, now)
      ensures old(Proceeds(auctionId, now)) && RouteOf(status, reachable, db.auctions[auctionId].region, currentRegion) == InRegion ==>
        r.bid.Some? && !r.bid.value.isDuringPartition && r.bid.value.isAccepted == r.success
    {
      var found := AuctionRepository.GetWithBidsAsync(db, auctionId);
      if found.None? {
        return BidResult(false, AuctionNotFound, None);
      }
      // Loading the auction changed only its bid list.
      assert db.bids == old(db.bids) && db.sequences == old(db.sequences) && db.events == old(db.events);
      assert coordinator.notifications == old(coordinator.notifications) && coordinator.lastStatus == old(coordinator.lastStatus);
      assert PartitionEventRepository.GetCurrentPartitionByAuctionRegionAsync(db, found.value.region) ==
             old(PartitionEventRepository.GetCurrentPartitionByAuctionRegionAsync(db, found.value.region));
      r := PlaceLoaded(auctionId, found.value, bidderId, amount, status, reachable, currentRegion, now, bidId, eventId);
    }

    /** A placement on the loaded `auction`, stored under `auctionId`: the
        state and due-date checks, then the routes. */
    method PlaceLoaded(auctionId: nat, auction: Auction, bidderId: nat, amount: int, status: Result<PartitionStatus>,
                       reachable: bool, currentRegion: Region, now: int, bidId: nat, eventId: nat) returns (r: BidResult)
      requires Valid() && auctionId in db.auctions && db.auctions[auctionId] == auction
      modifies db, auction, coordinator
      ensures Valid() && db.auctions == old(db.auctions)
      ensures coordinator.lastStatus == old(coordinator.lastStatus)
      ensures old(auction.state) != Active ==> r == BidResult(false, NotActive(old(auction.state)), None)
      ensures old(auction.state) == Active && PastDue(auction, now) ==>
        r == BidResult(true, AuctionEnded, None) && auction.View() == old(auction.View()).(state := Ended)
      ensures old(auction.state) == Active && !PastDue(auction, now) ==>
        RouteOutcome(RouteOf(status, reachable, auction.region, currentRegion), r, auctionId, bidderId, amount,
                     old(auction.View()), auction.View())
      ensures r.bid.None? ==>
        db.bids == old(db.bids) && db.sequences == old(db.sequences) && db.events == old(db.events) &&
        coordinator.notifications == old(coordinator.notifications)
      ensures old(auction.state) != Active ==> auction.View() == old(auction.View())
      ensures r.bid.Some? ==> fresh(r.bid.value)
      ensures r.bid.Some? ==> var b := r.bid.value;
        b.id == bidId && b.auctionId == auctionId && b.bidderId == bidderId && b.amount == amount &&
        b.originRegion == currentRegion && b.createdAt == now &&
        b.sequence == BidRepository.CurrentSequence(old(db.sequences), auctionId) + 1 &&
        db.bids == old(db.bids) + [b] && db.sequences == BidRepository.Advance(old(db.sequences), auctionId)
      ensures old(auction.state) == Active && !PastDue(auction, now) &&
              RouteOf(status, reachable, auction.region, currentRegion) == Queue ==>
        r.bid.Some? && r.bid.value.isDuringPartition && !r.bid.value.isAccepted &&
        RegistersPartition(old(PartitionEventRepository.GetCurrentPartitionByAuctionRegionAsync(db, auction.region)).Some?,
                           old(db.events), db.events, old(coordinator.notifications), coordinator.notifications,
                           eventId, currentRegion, auction.region, now)
      ensures old(auction.state) == Active && !PastDue(auction, now) &&
              RouteOf(status, reachable, auction.region, currentRegion) == InRegion ==>
        r.bid.Some? && !r.bid.value.isDuringPartition && r.bid.value.isAccepted == r.success
    {
      if auction.state != Active {
        return BidResult(false, NotActive(auction.state), None);
      }
      if PastDue(auction, now) {
        var _ := auction.End();
        var saved := AuctionRepository.UpdateAsync(db, auction);
        assert saved == Success(true);
        return BidResult(true, AuctionEnded, None);
      }
      r := PlaceOnRoute(auctionId, auction, bidderId, amount, status, reachable, currentRegion, now, bidId, eventId);
    }

    /** The routes of a placement on `auction`, stored under `auctionId`,
        once it has been found Active and not past due. Only the AP and CP
        paths create a bid; every other route leaves the store, the
        coordinator and the auction as they were. */
    method PlaceOnRoute(auctionId: nat, auction: Auction, bidderId: nat, amount: int, status: Result<PartitionStatus>,
                        reachable: bool, currentRegion: Region, now: int, bidId: nat, eventId: nat) returns (r: BidResult)
      requires Valid() && auctionId in db.auctions && db.auctions[auctionId] == auction && auction.state == Active
      modifies db, auction, coordinator
      ensures Valid() && db.auctions == old(db.auctions)
      ensures coordinator.lastStatus == old(coordinator.lastStatus)
      ensures RouteOutcome(RouteOf(status, reachable, auction.region, currentRegion), r, auctionId, bidderId, amount,
                           old(auction.View()), auction.View())
      ensures r.bid.None? ==>
        db.bids == old(db.bids) && db.sequences == old(db.sequences) && db.events == old(db.events) &&
        coordinator.notifications == old(coordinator.notifications)
      ensures r.bid.Some? ==> fresh(r.bid.value)
      ensures r.bid.Some? ==> var b := r.bid.value;
        b.id == bidId && b.auctionId == auctionId && b.bidderId == bidderId && b.amount == amount &&
        b.originRegion == currentRegion && b.createdAt == now &&
        b.sequence == BidRepository.CurrentSequence(old(db.sequences), auctionId) + 1 &&
        db.bids == old(db.bids) + [b] && db.sequences == BidRepository.Advance(old(db.sequences), auctionId)
      ensures RouteOf(status, reachable, auction.region, currentRegion) == Queue ==>
        r.bid.Some? && r.bid.value.isDuringPartition && !r.bid.value.isAccepted &&
        RegistersPartition(old(PartitionEventRepository.GetCurrentPartitionByAuctionRegionAsync(db, auction.region)).Some?,
                           old(db.events), db.events, old(coordinator.notifications), coordinator.notifications,
                           eventId, currentRegion, auction.region, now)
      ensures RouteOf(status, reachable, auction.region, currentRegion) == InRegion ==>
        r.bid.Some? && !r.bid.value.isDuringPartition && r.bid.value.isAccepted == r.success
    {
      match RouteOf(status, reachable, auction.region, currentRegion)
      case StatusFailed(message) =>
        r := BidResult(false, PlaceBidFailed(auctionId, message), None);
      case CurrentRegionDown =>
        r := BidResult(false, CurrentRegionPartitioned, None);
      case Queue =>
        var queued := HandlePartitionedBid(auction, bidderId, amount, currentRegion, now, bidId, eventId);
        // The auction was just found Active, so pausing it does not throw.
        assert queued.Success?;
        r := queued.value;
      case RegionDown =>
        r := BidResult(false, AuctionRegionPartitioned, None);
      case InRegion =>
        var placed := PlaceInRegion(auctionId, auction, bidderId, amount, currentRegion, reachable, now, bidId);
        // The region was just found reachable, so the guard lets the operation run.
        assert placed.Success?;
        r := placed.value;
    }
  
    /** Reconciles one auction after a heal. Only a Paused auction is
        reconciled. Its loaded bids and its queued bids (placed during the
        partition, before its end time) are merged without deduplication,
        resolved per region and then globally; the reconciled winner, if
        any, becomes price and winner with no ratchet check, and the auction
        is ended when past due and resumed otherwise. Without queued bids the
        auction is only settled. */
    method Reconcile(auctionId: nat, now: int) returns (r: ReconciliationResult)
      requires db.Valid()
      modifies db.AuctionObject(auctionId), db.BidsOf(auctionId)
      ensures !(auctionId in old(db.auctions) && old(db.auctions[auctionId].state) == Paused) ==> r == NotReconciled
      ensures auctionId in old(db.auctions) && old(db.auctions[auctionId].state) == Paused ==>
        var a := old(db.auctions[auctionId]);
        var loaded := old(BidRepository.GetByAuctionId(db, auctionId));
        var queued := old(BidRepository.GetBidsMadeDuringPartitionWithinAuctionDeadline(db, auctionId, a.endTime));
        Reconciled(a, loaded, queued, old(a.currentPrice), old(a.winningBidderId), old(a.version), r, now) &&
        (queued == [] ==> unchanged(db.BidsOf(auctionId)))
      ensures !(auctionId in old(db.auctions) && old(db.auctions[auctionId].state) == Paused) ==>
        unchanged(db.bids) &&
        (auctionId in db.auctions ==>
          var a := db.auctions[auctionId];
          a.View() == old(a.View()).(bids := old(BidRepository.GetByAuctionId(db, auctionId))))
    {
      var found, queued := LoadForReconciliation(auctionId);
      if found.None? {
        return NotReconciled;
      }
      r := ReconcilePaused(auctionId, found.value, queued, now);
    }

    /** The reconciling half of a reconciliation, on the loaded Paused
        auction stored under `auctionId`, holding all of that auction's
        stored bids, and the bids queued for it: only the auction and its
        own bids can change. */
    method ReconcilePaused(auctionId: nat, auction: Auction, queued: seq<Bid>, now: int) returns (r: ReconciliationResult)
      requires auction.id in db.auctions && db.auctions[auction.id] == auction && auction.state == Paused
      requires forall b :: b in auction.bids ==> b in db.bids && b.auctionId == auctionId
      requires forall b :: b in db.bids && b.auctionId == auctionId ==> b in auction.bids
      requires forall b :: b in queued ==> b in db.bids && b.auctionId == auctionId
      modifies auction, db.BidsOf(auctionId)
      ensures Reconciled(auction, old(auction.bids), queued, old(auction.currentPrice), old(auction.winningBidderId),
                         old(auction.version), r, now)
      ensures queued == [] ==> unchanged(db.BidsOf(auctionId))
    {
      r := ReconcileLoaded(auction, queued, now);
      var saved := AuctionRepository.UpdateAsync(db, auction);
      assert saved == Success(true);
    }

    /** The loading half of a reconciliation: the auction with its stored
        bids, when it is Paused, and the bids queued for it during the
        partition before its end time. */
    method LoadForReconciliation(auctionId: nat) returns (found: Option<Auction>, queued: seq<Bid>)
      modifies db.AuctionObject(auctionId)
      ensures db.auctions == old(db.auctions) && db.bids == old(db.bids)
      ensures found.Some? <==> auctionId in old(db.auctions) && old(db.auctions[auctionId].state) == Paused
      ensures found.Some? ==>
        var a := found.value;
        a == old(db.auctions[auctionId]) &&
        a.bids == old(BidRepository.GetByAuctionId(db, auctionId)) &&
        queued == old(BidRepository.GetBidsMadeDuringPartitionWithinAuctionDeadline(db, auctionId, a.endTime))
      ensures found.Some? ==>
        var a := found.value;
        a.state == Paused && a.currentPrice == old(a.currentPrice) &&
        a.winningBidderId == old(a.winningBidderId) && a.version == old(a.version)
      ensures found.Some? ==>
        (forall b :: b in found.value.bids ==> b in db.bids && b.auctionId == auctionId) &&
        (forall b :: b in queued ==> b in db.bids && b.auctionId == auctionId)
      ensures found.None? ==> unchanged(db.bids)
      ensures found.None? && auctionId in db.auctions ==>
        var a := db.auctions[auctionId];
        a.View() == old(a.View()).(bids := old(BidRepository.GetByAuctionId(db, auctionId)))
    {
      found := LoadPaused(auctionId);
      if found.None? {
        return None, [];
      }
      queued := BidRepository.GetBidsMadeDuringPartitionWithinAuctionDeadline(db, auctionId, found.value.endTime);
    }

    /** The auction with its stored bids when it is Paused; loading it
        leaves every bid as it was. */
    method LoadPaused(auctionId: nat) returns (found: Option<Auction>)
      modifies db.AuctionObject(auctionId)
      ensures db.auctions == old(db.auctions) && db.bids == old(db.bids) && unchanged(db.bids)
      ensures found.Some? <==> auctionId in old(db.auctions) && old(db.auctions[auctionId].state) == Paused
      ensures auctionId in db.auctions ==>
        var a := db.auctions[auctionId];
        a.View() == old(a.View()).(bids := old(BidRepository.GetByAuctionId(db, auctionId)))
      ensures found.Some? ==>
        var a := found.value;
        a == old(db.auctions[auctionId]) && a.bids == old(BidRepository.GetByAuctionId(db, auctionId)) &&
        a.state == Paused && a.currentPrice == old(a.currentPrice) &&
        a.winningBidderId == old(a.winningBidderId) && a.version == old(a.version)
    {
      ghost var bidObjects: seq<object> := db.bids;
      var loaded := AuctionRepository.GetWithBidsAsync(db, auctionId);
      if loaded.None? || loaded.value.state != Paused {
        return None;
      }
      // The loaded auction is not one of the stored bids.
      assert loaded.value !in bidObjects;
      found := loaded;
    }

    /** The body of the partition-detected handler: every Active auction of
        the cut-off region is paused and saved, so the region takes no bid
        until the heal; every other auction is left as it is. */
    method OnPartitionDetected(auctionRegion: Region)
      requires db.Valid()
      modifies db.auctions.Values
      ensures db.auctions == old(db.auctions)
      ensures forall k :: k in db.auctions ==>
        db.auctions[k].View() ==
          if old(db.auctions[k].state) == Active && db.auctions[k].region == auctionRegion
          then old(db.auctions[k].View()).(state := Paused)
          else old(db.auctions[k].View())
      ensures AuctionRepository.GetActiveAuctionsByRegion(db, auctionRegion) == {}
      ensures old(AuctionRepository.GetActiveAuctionsByRegion(db, auctionRegion)) <=
        AuctionRepository.GetAuctionsThatNeedsReconciliationByRegion(db, auctionRegion)
    {
      var active := AuctionRepository.GetActiveAuctionsByRegion(db, auctionRegion);
      var remaining := active;
      while remaining != {}
        invariant remaining <= active
        invariant forall a :: a in active && a !in remaining ==> a.View() == old(a.View()).(state := Paused)
        invariant forall a :: a in db.auctions.Values && (a !in active || a in remaining) ==> a.View() == old(a.View())
        decreases remaining
      {
        var auction :| auction in remaining;
        if auction.region == auctionRegion && auction.state == Active {
          var _ := auction.Pause();
          var saved := AuctionRepository.UpdateAsync(db, auction);
          assert saved == Success(true);
        }
        remaining := remaining - {auction};
      }
    }

    /** The body of the partition-healed handler. The region's current
        incident is marked Reconciling, every Paused auction of the region is
        reconciled (ended or resumed), and the same incident is Resolved.
        Without a current incident the first update throws; the fallback
        update back to Partitioned throws for the same reason, and that error
        leaves the handler. */
    method OnPartitionHealed(auctionRegion: Region, now: int) returns (r: Outcome)
      requires Valid()
      modifies db.events, db.auctions.Values, HealedBids(db, auctionRegion)
      ensures r.Fail? <==> old(PartitionEventRepository.GetCurrentPartitionByAuctionRegionAsync(db, auctionRegion)).None?
      ensures r.Fail? ==> r.message == PartitionNotFound(auctionRegion) && unchanged(db.events)
      ensures r.Pass? ==>
        var e := old(PartitionEventRepository.GetCurrentPartitionByAuctionRegionAsync(db, auctionRegion)).value;
        e.status == Resolved && e.endTime == Some(now)
      ensures r.Pass? ==> AuctionRepository.GetAuctionsThatNeedsReconciliationByRegion(db, auctionRegion) == {}
      ensures r.Pass? ==> HealedRegion(db.auctions, old(Views(db.auctions)), auctionRegion, now)
      ensures r.Pass? ==>
        var e := old(PartitionEventRepository.GetCurrentPartitionByAuctionRegionAsync(db, auctionRegion)).value;
        KeptOutside(Statuses(db.events), old(Statuses(db.events)), {e})
      ensures r.Fail? ==> Views(db.auctions) == old(Views(db.auctions)) && Outcomes(db.bids) == old(Outcomes(db.bids))
      ensures KeptOutside(Outcomes(db.bids), old(Outcomes(db.bids)), old(HealedBids(db, auctionRegion)))
    {
      var marked := MarkReconciling(auctionRegion, now);
      if marked.Failure? {
        RestorePartitioned(auctionRegion, now);
        return Fail(marked.message);
      }
      FinishHeal(auctionRegion, now, marked.value);
      r := Pass;
    }

    /** The fallback of a heal that found no current incident: the update
        back to Partitioned finds none either, so nothing changes. */
    method RestorePartitioned(auctionRegion: Region, now: int)
      requires Valid()
      requires PartitionEventRepository.GetCurrentPartitionByAuctionRegionAsync(db, auctionRegion).None?
      modifies db.events
      ensures unchanged(db.events)
      ensures Views(db.auctions) == old(Views(db.auctions))
    {
      var restored := coordinator.UpdatePartitionByAuctionRegion(auctionRegion, Partitioned, now);
      assert restored.Failure?;
      assert forall k :: k in db.auctions ==> db.auctions[k] in db.auctions.Values;
    }

    /** The rest of a heal once incident `e` is current: the region's Paused
        auctions are reconciled, which leaves `e` current, and `e` is
        Resolved. */
    method FinishHeal(auctionRegion: Region, now: int, e: PartitionEvent)
      requires Valid()
      requires PartitionEventRepository.GetCurrentPartitionByAuctionRegionAsync(db, auctionRegion) == Some(e)
      modifies db.events, db.auctions.Values, HealedBids(db, auctionRegion)
      ensures e.status == Resolved && e.endTime == Some(now)
      ensures KeptOutside(Statuses(db.events), old(Statuses(db.events)), {e})
      ensures AuctionRepository.GetAuctionsThatNeedsReconciliationByRegion(db, auctionRegion) == {}
      ensures HealedRegion(db.auctions, old(Views(db.auctions)), auctionRegion, now)
      ensures KeptOutside(Outcomes(db.bids), old(Outcomes(db.bids)), old(HealedBids(db, auctionRegion)))
    {
      ReconcileRegion(auctionRegion, now);
      ResolveIncident(auctionRegion, now, e);
    }

    /** The last step of a heal: the current incident `e` is Resolved;
        no auction is touched. */
    method ResolveIncident(auctionRegion: Region, now: int, e: PartitionEvent)
      requires Valid()
      requires PartitionEventRepository.GetCurrentPartitionByAuctionRegionAsync(db, auctionRegion) == Some(e)
      modifies db.events
      ensures e.status == Resolved && e.endTime == Some(now)
      ensures KeptOutside(Statuses(db.events), old(Statuses(db.events)), {e})
      ensures Outcomes(db.bids) == old(Outcomes(db.bids))
      ensures db.auctions == old(db.auctions) && unchanged(db.auctions.Values)
    {
      // Neither the store nor any auction is an incident.
      ghost var store: object := db;
      ghost var eventObjects: seq<object> := db.events;
      assert store !in eventObjects && forall a :: a in db.auctions.Values ==> (a as object) !in eventObjects;
      var resolved := coordinator.UpdatePartitionByAuctionRegion(auctionRegion, Resolved, now);
      assert resolved.Success?;
    }

    /** The first step of a heal: the region's current incident is marked
        Reconciling, and so stays the region's current incident. */
    method MarkReconciling(auctionRegion: Region, now: int) returns (r: Result<PartitionEvent>)
      requires Valid()
      modifies db.events
      ensures r.Failure? <==> old(PartitionEventRepository.GetCurrentPartitionByAuctionRegionAsync(db, auctionRegion)).None?
      ensures r.Failure? ==> r.message == PartitionNotFound(auctionRegion) && unchanged(db.events)
      ensures r.Success? ==>
        r.value == old(PartitionEventRepository.GetCurrentPartitionByAuctionRegionAsync(db, auctionRegion)).value &&
        r.value.status == Reconciling && r.value.endTime == old(r.value.endTime) &&
        PartitionEventRepository.GetCurrentPartitionByAuctionRegionAsync(db, auctionRegion) == Some(r.value)
      ensures r.Success? ==> KeptOutside(Statuses(db.events), old(Statuses(db.events)), {r.value})
      ensures Outcomes(db.bids) == old(Outcomes(db.bids))
      ensures HealedBids(db, auctionRegion) == old(HealedBids(db, auctionRegion))
      ensures Views(db.auctions) == old(Views(db.auctions))
    {
      ghost var flags := PartitionEventRepository.ActiveFlags(db.events);
      PartitionEventRepository.NewestByFlags(db.events, Some(auctionRegion));
      r := UpdateIncident(auctionRegion, Reconciling, now);
      if r.Success? {
        // Partitioned became Reconciling: every incident is as active as before.
        forall i | 0 <= i < |db.events|
          ensures db.events[i].IsActive() == flags[i]
        {
          assert db.events[i] in db.events;
        }
        PartitionEventRepository.SameActiveFlags(db.events, flags);
        PartitionEventRepository.NewestByFlags(db.events, Some(auctionRegion));
      }
    }

    /** The coordinator's update of the region's current incident, seen
        from the service: only that incident changes, and no auction or bid
        does. */
    method UpdateIncident(auctionRegion: Region, target: PartitionStatus, now: int) returns (r: Result<PartitionEvent>)
      requires Valid()
      modifies db.events
      ensures r.Failure? <==> old(PartitionEventRepository.GetCurrentPartitionByAuctionRegionAsync(db, auctionRegion)).None?
      ensures r.Failure? ==> r.message == PartitionNotFound(auctionRegion) && unchanged(db.events)
      ensures r.Success? ==>
        r.value == old(PartitionEventRepository.GetCurrentPartitionByAuctionRegionAsync(db, auctionRegion)).value &&
        r.value.status == target &&
        r.value.endTime == if target == Resolved then Some(now) else if target == Healthy then None else old(r.value.endTime)
      ensures forall e :: e in db.events && (r.Failure? || e != r.value) ==> e.status == old(e.status)
      ensures r.Success? ==> KeptOutside(Statuses(db.events), old(Statuses(db.events)), {r.value})
      ensures Outcomes(db.bids) == old(Outcomes(db.bids))
      ensures Views(db.auctions) == old(Views(db.auctions))
      ensures HealedBids(db, auctionRegion) == old(HealedBids(db, auctionRegion))
    {
      r := TransitionIncident(auctionRegion, target, now);
      assert forall k :: k in db.auctions ==> db.auctions[k] in db.auctions.Values;
    }

    /** The coordinator's update with what it leaves alone: the incidents
        other than the updated one, and every auction and bid. */
    method TransitionIncident(auctionRegion: Region, target: PartitionStatus, now: int) returns (r: Result<PartitionEvent>)
      requires Valid()
      modifies db.events
      ensures r.Failure? <==> old(PartitionEventRepository.GetCurrentPartitionByAuctionRegionAsync(db, auctionRegion)).None?
      ensures r.Failure? ==> r.message == PartitionNotFound(auctionRegion) && unchanged(db.events)
      ensures r.Success? ==>
        r.value == old(PartitionEventRepository.GetCurrentPartitionByAuctionRegionAsync(db, auctionRegion)).value &&
        r.value.status == target &&
        r.value.endTime == if target == Resolved then Some(now) else if target == Healthy then None else old(r.value.endTime)
      ensures forall e :: e in db.events && (r.Failure? || e != r.value) ==> e.status == old(e.status)
      ensures r.Success? ==> KeptOutside(Statuses(db.events), old(Statuses(db.events)), {r.value})
      ensures unchanged(db, db.auctions.Values, db.bids)
    {
      r := coordinator.UpdatePartitionByAuctionRegion(auctionRegion, target, now);
    }

    /** The heal loop: every Paused auction of the region is reconciled,
        which ends or resumes it; every other auction is left as it is. */
    method ReconcileRegion(auctionRegion: Region, now: int)
      requires Valid()
      modifies db.auctions.Values, HealedBids(db, auctionRegion)
      ensures forall k :: k in db.auctions && db.auctions[k].region == auctionRegion && old(db.auctions[k].state) == Paused ==>
        db.auctions[k].state == if PastDue(db.auctions[k], now) then Ended else Active
      ensures forall k :: k in db.auctions && !(db.auctions[k].region == auctionRegion && old(db.auctions[k].state) == Paused) ==>
        db.auctions[k].View() == old(db.auctions[k].View())
      ensures AuctionRepository.GetAuctionsThatNeedsReconciliationByRegion(db, auctionRegion) == {}
      ensures KeptOutside(Outcomes(db.bids), old(Outcomes(db.bids)), old(HealedBids(db, auctionRegion)))
      ensures unchanged(db.events) && Statuses(db.events) == old(Statuses(db.events))
    {
      var affected := AuctionRepository.GetAuctionsThatNeedsReconciliationByRegion(db, auctionRegion);
      ResumeAll(auctionRegion, affected, now);
      // No incident is an auction or a bid, so the loop left them alone.
      ghost var eventObjects: seq<object> := db.events;
      assert forall a :: a in db.auctions.Values ==> (a as object) !in eventObjects;
      assert forall b :: b in old(HealedBids(db, auctionRegion)) ==> (b as object) !in eventObjects;
    }

    /** The loop of the heal: each of the `affected` Paused auctions of the
        region is reconciled in turn, which ends or resumes it. */
    method ResumeAll(auctionRegion: Region, affected: set<Auction>, now: int)
      requires Valid()
      requires affected == AuctionRepository.GetAuctionsThatNeedsReconciliationByRegion(db, auctionRegion)
      modifies affected, HealedBids(db, auctionRegion)
      ensures forall a :: a in affected ==> a.state == if PastDue(a, now) then Ended else Active
    {
      var remaining := affected;
      while remaining != {}
        invariant remaining <= affected
        invariant forall a :: a in affected ==> old(a.state) == Paused
        invariant forall a :: a in remaining ==> a.state == Paused
        invariant forall a :: a in affected && a !in remaining ==> a.state == if PastDue(a, now) then Ended else Active
        decreases remaining
      {
        var auction :| auction in remaining;
        ResumeAfterHeal(auction, now);
        remaining := remaining - {auction};
      }
    }

    /** One reconciliation of the heal loop, seen from the loop, which only
        needs to know that the auction is ended or resumed. */
    method ResumeAfterHeal(auction: Auction, now: int)
      requires Valid() && auction in db.auctions.Values && auction.state == Paused
      modifies auction, db.BidsOf(auction.id)
      ensures auction.state == if PastDue(auction, now) then Ended else Active
    {
      var _ := ReconcileAfterHeal(auction, now);
    }

    /** One reconciliation of the heal loop: a Paused stored auction is
        reconciled, with the outcome `Reconcile` states; it ends up ended or
        resumed. */
    method ReconcileAfterHeal(auction: Auction, now: int) returns (r: ReconciliationResult)
      requires Valid() && auction in db.auctions.Values && auction.state == Paused
      modifies auction, db.BidsOf(auction.id)
      ensures auction.state == if PastDue(auction, now) then Ended else Active
      ensures var loaded := old(BidRepository.GetByAuctionId(db, auction.id));
        var queued := old(BidRepository.GetBidsMadeDuringPartitionWithinAuctionDeadline(db, auction.id, auction.endTime));
        Reconciled(auction, loaded, queued, old(auction.currentPrice), old(auction.winningBidderId), old(auction.version), r, now)
    {
      assert db.auctions[auction.id] == auction;
      r := Reconcile(auction.id, now);
    }
  }

  /** Reconciliation of a loaded Paused auction: without queued bids it is
      only settled and reports its own winner and price; otherwise the merged
      list is resolved and its reconciled winner reported and written. */
  method ReconcileLoaded(auction: Auction, queued: seq<Bid>, now: int) returns (r: ReconciliationResult)
    requires auction.state == Paused
    modifies auction, auction.bids, queued
    ensures auction.bids == old(auction.bids)
    ensures r == if queued == [] then ReconciliationResult(true, 0, old(auction.winningBidderId), Some(old(auction.currentPrice)))
                 else ReconciledResult(old(auction.bids), queued)
    ensures queued == [] ==> unchanged(auction.bids)
    ensures queued != [] ==>
      AllReconciled(MergeForReconciliation(old(auction.bids), queued), old(auction.bids)) &&
      AllReconciled(MergeForReconciliation(old(auction.bids), queued), queued)
    ensures Settled(auction, old(auction.currentPrice), old(auction.winningBidderId), old(auction.version), r, now)
  {
    if queued == [] {
      Settle(auction, now);
      return ReconciliationResult(true, 0, auction.winningBidderId, Some(auction.currentPrice));
    }
    r := ReconcileQueued(auction, queued, now);
  }

  /** Reconciliation of a Paused auction with the bids queued for it: the
      merged list is resolved, its reconciled winner written to the auction,
      and the auction settled. */
  method ReconcileQueued(auction: Auction, queued: seq<Bid>, now: int) returns (r: ReconciliationResult)
    requires auction.state == Paused && queued != []
    modifies auction, auction.bids, queued
    ensures auction.bids == old(auction.bids)
    ensures r == ReconciledResult(old(auction.bids), queued)
    ensures AllReconciled(MergeForReconciliation(old(auction.bids), queued), old(auction.bids))
    ensures AllReconciled(MergeForReconciliation(old(auction.bids), queued), queued)
    ensures Settled(auction, old(auction.currentPrice), old(auction.winningBidderId), old(auction.version), r, now)
  {
    // An auction is not a bid: seen as objects, neither list holds it.
    ghost var loadedObjects: seq<object> := auction.bids;
    ghost var queuedObjects: seq<object> := queued;
    assert auction !in loadedObjects && auction !in queuedObjects;
    r := ResolveAndReport(auction.bids, queued);
    ApplyReconciled(auction, r, now, auction.bids + queued);
  }

  /** The resolution of a reconciliation and the report it gives. */
  method ResolveAndReport(loaded: seq<Bid>, queued: seq<Bid>) returns (r: ReconciliationResult)
    modifies loaded, queued
    ensures r == ReconciledResult(loaded, queued)
    ensures AllReconciled(MergeForReconciliation(loaded, queued), loaded)
    ensures AllReconciled(MergeForReconciliation(loaded, queued), queued)
  {
    var winner := ResolveMerged(loaded, queued);
    r := Report(|loaded| + |queued|, winner);
  }
}
