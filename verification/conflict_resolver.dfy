/** Conflict resolution after a partition: first one winner per origin
    region (the earliest bid), then one global winner among the accepted bids
    (the highest amount). Both stages mark the bid objects they are given. */
module ConflictResolution {
  import opened Common
  import opened Sorting
  import opened Bids

  /** The regional order: CreatedAt, then Sequence. */
  function TimeThenSequence(b: Bid): Key {
    Key(b.createdAt, b.sequence, 0)
  }

  /** The global order: Amount descending, then CreatedAt, then Sequence. */
  function HighestFirst(b: Bid): Key {
    Key(-b.amount, b.createdAt, b.sequence)
  }

  /** The rejection reason of a bid that lost the regional stage. */
  function LostInRegion(region: Region): string {
    "Lost in conflict resolution by region: " + RegionName(region)
  }

  /** The rejection reason of a bid that lost the global stage. */
  const LostGlobally: string := "Lost in global conflict resolution"

  /** The bids of `allBids` that originate in `region`, in list order. */
  function RegionBids(allBids: seq<Bid>, region: Region): (r: seq<Bid>)
    ensures forall b :: b in r ==> b in allBids && b.originRegion == region
    ensures forall b :: b in allBids && b.originRegion == region ==> b in r
    ensures forall b :: b in allBids && b.originRegion == region ==> multiset(r)[b] == multiset(allBids)[b]
  {
    Filter(allBids, (b: Bid) => b.originRegion == region)
  }

  /** The region's bids in the order the regional stage ranks them. */
  function RegionalRanking(allBids: seq<Bid>, region: Region): (r: seq<Bid>)
    ensures forall b :: b in r ==> b in allBids && b.originRegion == region
    ensures forall b :: b in allBids && b.originRegion == region ==> b in r
    ensures forall b :: b in allBids && b.originRegion == region ==> multiset(r)[b] == multiset(allBids)[b]
    ensures SortedBy(r, TimeThenSequence)
  {
    SortBy(RegionBids(allBids, region), TimeThenSequence)
  }

  /** The bid the regional stage accepts: the first of the region's ranking,
      none when the region has no bid. */
  function RegionalWinner(allBids: seq<Bid>, region: Region): (r: Option<Bid>)
    ensures r.None? <==> forall b :: b in allBids ==> b.originRegion != region
    ensures r.Some? ==> r.value in allBids && r.value.originRegion == region
  {
    var ranking := RegionalRanking(allBids, region);
    if ranking == [] then None else Some(ranking[0])
  }

  /** No bid of the region precedes the regional winner in (CreatedAt,
      Sequence) order. */
  lemma RegionalWinnerIsEarliest(allBids: seq<Bid>, region: Region, b: Bid)
    requires b in allBids && b.originRegion == region
    ensures RegionalWinner(allBids, region).Some?
    ensures KeyLe(TimeThenSequence(RegionalWinner(allBids, region).value), TimeThenSequence(b))
  {
    var ranking := RegionalRanking(allBids, region);
    SortedHeadIsLeast(ranking, TimeThenSequence, b);
  }

  /** Rejects every bid of `bids`, in order, with `reason`. */
  method RejectAll(bids: seq<Bid>, reason: string)
    modifies bids
    ensures forall b :: b in bids ==> !b.isAccepted && b.rejectionReason == reason
    ensures forall b :: b in bids ==> b.isDuringPartition == old(b.isDuringPartition)
  {
    var i := 0;
    while i < |bids|
      invariant i <= |bids|
      invariant forall b :: b in bids[..i] ==> !b.isAccepted && b.rejectionReason == reason
      invariant forall b :: b in bids ==> b.isDuringPartition == old(b.isDuringPartition)
    {
      bids[i].Reject(reason);
      i := i + 1;
    }
    assert bids[..i] == bids;
  }

  /** Every element of a sequence is its head or occurs in its tail, and the
      head occurs in the tail exactly when it occurs more than once. */
  lemma HeadAndTail<T>(s: seq<T>)
    requires s != []
    ensures forall x :: x in s ==> x == s[0] || x in s[1..]
    ensures s[0] in s[1..] <==> multiset(s)[s[0]] > 1
  {
    assert s == [s[0]] + s[1..];
    assert multiset(s) == multiset{s[0]} + multiset(s[1..]);
  }

  /** The regional stage. The bids of `region` are ranked by (CreatedAt,
      Sequence); the first is accepted and every later position rejected.
      A bid object listed twice is therefore both accepted and rejected and
      ends rejected: afterwards a bid of the region is accepted exactly when
      it is the regional winner and occurs once in `allBids`. Bids of other
      regions are not touched. */
  method ResolveConflictingBids(allBids: seq<Bid>, region: Region)
    modifies allBids
    ensures forall b :: b in allBids && b.originRegion != region ==>
      b.isAccepted == old(b.isAccepted) && b.rejectionReason == old(b.rejectionReason)
    ensures forall b :: b in allBids && b.originRegion == region ==>
      (b.isAccepted <==> Some(b) == RegionalWinner(allBids, region) && multiset(allBids)[b] == 1)
    ensures forall b :: b in allBids && b.originRegion == region ==>
      b.rejectionReason == if b.isAccepted then "" else LostInRegion(region)
  {
    if allBids == [] {
      return;
    }
    var ranking := RegionalRanking(allBids, region);
    if ranking == [] {
      return;
    }
    AcceptFirst(ranking, LostInRegion(region));
  }

  /** Accepts the first bid of `ranking`, then rejects every later position
      with `reason`: a bid ends accepted exactly when it is the first and
      does not occur again. */
  method AcceptFirst(ranking: seq<Bid>, reason: string)
    requires ranking != []
    modifies ranking
    ensures forall b :: b in ranking ==> (b.isAccepted <==> b == ranking[0] && multiset(ranking)[b] == 1)
    ensures forall b :: b in ranking ==> b.rejectionReason == if b.isAccepted then "" else reason
    ensures forall b :: b in ranking ==> b.isDuringPartition == old(b.isDuringPartition)
  {
    ranking[0].Accept();
    label accepted:
    RejectAll(ranking[1..], reason);
    HeadAndTail(ranking);
    forall b | b in ranking
      ensures b.isDuringPartition == old(b.isDuringPartition)
    {
      assert b.isDuringPartition == old@accepted(b.isDuringPartition);
    }
  }

  /** The bids of `s` currently accepted, in list order. */
  function AcceptedBids(s: seq<Bid>): (r: seq<Bid>)
    reads s
    ensures forall b :: b in r ==> b in s && b.isAccepted
    ensures forall b :: b in s && b.isAccepted ==> b in r
  {
    if s == [] then []
    else
      assert s == [s[0]] + s[1..];
      var rest := AcceptedBids(s[1..]);
      if s[0].isAccepted then [s[0]] + rest else rest
  }

  /** The global winner among `candidates`: the first by amount descending,
      then creation time, then sequence; none when there are no candidates. */
  function FinalWinner(candidates: seq<Bid>): (r: Option<Bid>)
    ensures r.None? <==> candidates == []
    ensures r.Some? ==> r.value in candidates
  {
    var ranking := SortBy(candidates, HighestFirst);
    if ranking == [] then None else Some(ranking[0])
  }

  /** The final winner has the highest amount of all candidates; among the
      candidates with that amount it is the earliest, then the lowest
      sequence. */
  lemma FinalWinnerIsHighest(candidates: seq<Bid>, b: Bid)
    requires b in candidates
    ensures FinalWinner(candidates).Some?
    ensures KeyLe(HighestFirst(FinalWinner(candidates).value), HighestFirst(b))
    ensures b.amount <= FinalWinner(candidates).value.amount
  {
    var ranking := SortBy(candidates, HighestFirst);
    SortedHeadIsLeast(ranking, HighestFirst, b);
  }

  /** The global stage. Among the bids accepted on entry, the final winner is
      accepted and every other one rejected; bids not accepted on entry are
      not touched. None when no bid was accepted. */
  method DetermineFinalWinner(allBids: seq<Bid>) returns (winner: Option<Bid>)
    modifies allBids
    ensures winner == FinalWinner(old(AcceptedBids(allBids)))
    ensures winner.None? <==> forall b :: b in allBids ==> !old(b.isAccepted)
    ensures winner.Some? ==> winner.value in allBids && winner.value.isAccepted && winner.value.rejectionReason == ""
    ensures forall b :: b in allBids && old(b.isAccepted) && Some(b) != winner ==>
      !b.isAccepted && b.rejectionReason == LostGlobally
    ensures forall b :: b in allBids && !old(b.isAccepted) ==>
      !b.isAccepted && b.rejectionReason == old(b.rejectionReason)
    ensures forall b :: b in allBids ==> b.isDuringPartition == old(b.isDuringPartition)
  {
    var accepted := AcceptedBids(allBids);
    assert forall i :: 0 <= i < |accepted| ==> accepted[i] in allBids;
    winner := FinalWinner(accepted);
    if winner.None? {
      return;
    }
    var w := winner.value;
    w.Accept();
    RejectOthers(accepted, w, LostGlobally);
  }

  /** Rejects, with `reason`, every bid of `bids` other than `keep`. */
  method RejectOthers(bids: seq<Bid>, keep: Bid, reason: string)
    modifies bids
    ensures forall b :: b in bids && b != keep ==> !b.isAccepted && b.rejectionReason == reason
    ensures keep.isAccepted == old(keep.isAccepted) && keep.rejectionReason == old(keep.rejectionReason)
    ensures forall b :: b in bids ==> b.isDuringPartition == old(b.isDuringPartition)
  {
    var i := 0;
    while i < |bids|
      invariant i <= |bids|
      invariant forall b :: b in bids[..i] && b != keep ==> !b.isAccepted && b.rejectionReason == reason
      invariant keep.isAccepted == old(keep.isAccepted) && keep.rejectionReason == old(keep.rejectionReason)
      invariant forall b :: b in bids ==> b.isDuringPartition == old(b.isDuringPartition)
    {
      if bids[i] != keep {
        bids[i].Reject(reason);
      }
      i := i + 1;
    }
    assert bids[..i] == bids;
  }

  /** Whether `b` comes out of the regional stage on `allBids` accepted: it is
      its region's winner and occurs only once in the list. */
  predicate SurvivesRegionalStage(allBids: seq<Bid>, b: Bid) {
    RegionalWinner(allBids, b.originRegion) == Some(b) && multiset(allBids)[b] == 1
  }

  /** The bids the regional stage leaves accepted, in list order. */
  function RegionalSurvivors(allBids: seq<Bid>): (r: seq<Bid>)
    ensures forall b :: b in r ==> b in allBids && SurvivesRegionalStage(allBids, b)
    ensures forall b :: b in allBids && SurvivesRegionalStage(allBids, b) ==> b in r
  {
    Filter(allBids, (b: Bid) => SurvivesRegionalStage(allBids, b))
  }

  /** The bid both stages together leave accepted, if any. Its properties
      are stated separately, by `ReconciledWinnerSurvives`, so that
      callers that only pass it around do not carry them. */
  function ReconciledWinner(allBids: seq<Bid>): Option<Bid> {
    FinalWinner(RegionalSurvivors(allBids))
  }

  /** There is a reconciled winner exactly when some bid survives the
      regional stage, and the winner is one of those survivors. */
  lemma ReconciledWinnerSurvives(allBids: seq<Bid>)
    ensures ReconciledWinner(allBids).None? <==> forall b :: b in allBids ==> !SurvivesRegionalStage(allBids, b)
    ensures ReconciledWinner(allBids).Some? ==>
      ReconciledWinner(allBids).value in allBids && SurvivesRegionalStage(allBids, ReconciledWinner(allBids).value)
  {
  }

  /** The reconciled winner has the highest amount among the bids that
      survive the regional stage; a bid listed twice never wins. */
  lemma ReconciledWinnerIsHighestSurvivor(allBids: seq<Bid>, b: Bid)
    requires b in allBids && SurvivesRegionalStage(allBids, b)
    ensures ReconciledWinner(allBids).Some?
    ensures b.amount <= ReconciledWinner(allBids).value.amount
    ensures multiset(allBids)[ReconciledWinner(allBids).value] == 1
  {
    FinalWinnerIsHighest(RegionalSurvivors(allBids), b);
  }

  /** Within one region the earliest bid wins even against a later, higher
      one: two bids of the same region reconcile to the earlier, lower one,
      although the price ratchet would have kept the later one. */
  lemma EarliestBeatsHigherInSameRegion(early: Bid, late: Bid)
    requires early != late && early.originRegion == late.originRegion
    requires early.createdAt < late.createdAt && early.amount < late.amount
    ensures ReconciledWinner([early, late]) == Some(early)
  {
    var all: seq<Bid> := [early, late];
    var region := early.originRegion;
    assert RegionBids(all, region) == all;
    assert SortBy([late], TimeThenSequence) == [late];
    assert RegionalRanking(all, region) == all;
    assert SurvivesRegionalStage(all, early);
    assert !SurvivesRegionalStage(all, late);
    assert Filter([late], (b: Bid) => SurvivesRegionalStage(all, b)) == [];
    assert RegionalSurvivors(all) == [early];
  }

  /** A bid listed once that is earlier than every other bid of its region
      survives the regional stage. */
  lemma EarliestListedOnceSurvives(allBids: seq<Bid>, w: Bid)
    requires w in allBids && multiset(allBids)[w] == 1
    requires forall b :: b in allBids && b != w && b.originRegion == w.originRegion ==> w.createdAt < b.createdAt
    ensures SurvivesRegionalStage(allBids, w)
  {
    RegionalWinnerIsEarliest(allBids, w.originRegion, w);
  }

  /** When exactly one bid survives the regional stage, it is the reconciled
      winner. */
  lemma SoleSurvivorWins(allBids: seq<Bid>, w: Bid)
    requires w in allBids && SurvivesRegionalStage(allBids, w)
    requires forall b :: b in allBids && SurvivesRegionalStage(allBids, b) ==> b == w
    ensures ReconciledWinner(allBids) == Some(w)
  {
    ReconciledWinnerSurvives(allBids);
  }

  /** When all bids come from one region, the earliest of them, listed once,
      is the reconciled winner, whatever the amounts. */
  lemma EarliestOfOneRegionWins(allBids: seq<Bid>, w: Bid)
    requires w in allBids && multiset(allBids)[w] == 1
    requires forall b :: b in allBids ==> b.originRegion == w.originRegion
    requires forall b :: b in allBids && b != w ==> w.createdAt < b.createdAt
    ensures ReconciledWinner(allBids) == Some(w)
  {
    EarliestListedOnceSurvives(allBids, w);
    SoleSurvivorWins(allBids, w);
  }

  /** When every bid's acceptance flag matches `p`, the accepted bids are
      exactly the bids that satisfy `p`, in the same order. */
  lemma {:induction false} AcceptedBidsMatchFilter(s: seq<Bid>, p: Bid -> bool)
    requires forall b :: b in s ==> (b.isAccepted <==> p(b))
    ensures AcceptedBids(s) == Filter(s, p)
  {
    if s != [] {
      assert s == [s[0]] + s[1..];
      AcceptedBidsMatchFilter(s[1..], p);
    }
  }
}
