# Car auction: the consistency-routing bid pipeline

A Dafny model of the core of a CAP-style car auction simulator. Bids are routed by the state of a simulated network partition between regions:

- **Strong path (CP).** When the auction's region is reachable, a bid takes the next per-auction sequence number. It is validated against the stored auction and offered to the auction's price ratchet. It is stored accepted or rejected.
- **Queue path (AP).** When the auction's region is cut off from the bidder's region, the bid is stored flagged "during partition". The auction is paused and the partition incident is registered.
- **Refusal.** The bid is refused when the bidder's own region is partitioned, or when the bidder is inside the cut-off region.

After a heal, each paused auction of the region is reconciled:

1. its stored bids and its queued bids are merged;
2. each origin region keeps its earliest bid;
3. the highest of the regional survivors wins;
4. the auction is written and then ended or resumed.

## How the model is built

- **Entities.** The entities the source updates in place are classes with `var` fields: `Auction`, `Bid` and `PartitionEvent`. Properties that no modelled operation changes are `const`. That includes `Auction`'s starting price, reserve price, start time and end time: the source can reassign them, but only through `UpdatePricing` and `UpdateTimes`, which are outside this model (see "Left out").
- **The shared database context** is one `Store.Database` object. Its tables are `auctions`, `bids`, the per-auction sequence counters and `events`.
  - The tables hold object references, as the context's identity map does. Loading a row twice yields the same object, so changing a loaded entity is visible to every later query.
  - This matters for reconciliation. The merged list holds the queued bids twice: once among the auction's loaded bids, once among the queued ones.
- **Repositories** are modules of functions (the queries) and methods (inserts, the counter, the reload) over the `Database`.
  - LINQ `Where`/`OrderBy`/`ThenBy` and `List.Sort` are one stable insertion sort over a lexicographic key (`Sorting`).
- **Services** are modules or classes:
  - `ConflictResolution`, `BidOrdering`: modules of methods over bid objects.
  - `Coordination.RegionCoordinator`: a class holding the remembered status and the raised notifications.
  - `Service.AuctionService`: the orchestrator class.
  - `Simulation.PartitionSimulator`: a class holding the partition flag and the remembered incident.
- **Thrown exceptions** become `Outcome.Fail` or `Result.Failure` with the exception's message.
- **Time, ids and coordinator answers.** Clock readings are an integer `now`. Generated Guids are caller-supplied naturals. Amounts are `int`.
- **`PlaceBid` inputs.** `PlaceBid` receives the coordinator's answers (status and reachability) and the bidder's region as parameters, so every branch can be stated. `Service.RealCoordinatorNeverQueues` then shows which branches the real coordinator can reach.
- **Auction lifecycle.** It is also described on values (`Auctions.AuctionView`, `Step`, `Run`). Each `Auction` method's contract ties the object's new `View()` to `Step` of its old view. The ratchet lemmas are stated over `Run`.

Some behaviours of the code are easy to misread. The model follows the code in each of them:

- **No deduplication.** Reconciliation concatenates the auction's loaded bids with the queued ones (`src/CarAuction.Application/Services/AuctionService.cs:201-206`). The queued bids are already stored, so they are among the loaded ones too, and nothing removes the second copy (`Service.QueuedBidsNeverWin`).
- **Regional stage keeps the earliest bid.** The unit test at `tests/CarAuction.UnitTests/Services/ConflictResolverTests.cs:37-46` expects the highest bid of the region to be accepted. The code at `src/CarAuction.Application/Services/ConflictResolver.cs:26-36` sorts the region's bids by CreatedAt, then Sequence, and accepts the first (`ConflictResolution.EarliestBeatsHigherInSameRegion`). The rejection reason names the region (`ConflictResolver.cs:39`).
- **Price can drop.** `UpdateWinningBid` (`src/CarAuction.Domain/Models/Auctions/Auction.cs:128-134`) sets the price with no check. A reconciliation can therefore lower the current price (`Service.ReconciliationCanLowerPrice`).
- **The queue path pauses unconditionally.** `HandlePartitionedBidAsync` calls `Pause` (`AuctionService.cs:330`), which throws unless the auction is Active.
- **Create calls `AddAsync`.** `CreateAuctionAsync` calls `AddAsync` on the auction repository (`AuctionService.cs:55`). The repository's interface only declares `CreateAsync` (`src/CarAuction.Domain/Abstractions/Repositories/IAuctionRepository.cs:10`). The model uses `CreateAsync`, counter seed included.

## Model

| member | source | states |
|---|---|---|
| Sorting.SortBy | src/CarAuction.Application/Services/ConflictResolver.cs:26-33 | the result is a permutation of the input (same multiset, same length, same elements) sorted by the key |
| Sorting.InsertSorted | src/CarAuction.Application/Services/ConflictResolver.cs:26-33 | inserting into a sorted sequence keeps it sorted |
| Sorting.SortedHeadIsLeast | src/CarAuction.Application/Services/ConflictResolver.cs:36 | the first element of a sorted sequence sorts no later than any of its elements |
| Common.RegionIndex | src/CarAuction.Application/Services/AuctionService.cs:210 | every region occurs in the enumeration the reconciliation walks, at the returned position |
| Bids.Bid.constructor | src/CarAuction.Domain/Models/Bids/Bid.cs:18-30 | a fresh bid carries the given id, auction, bidder, amount, region, sequence and time; it is not accepted, not during partition, with an empty reason |
| Bids.Bid.Accept | src/CarAuction.Domain/Models/Bids/Bid.cs:34-38 | the bid is accepted with an empty reason; the partition flag is kept |
| Bids.Bid.Reject | src/CarAuction.Domain/Models/Bids/Bid.cs:40-44 | the bid is not accepted and carries the given reason; the partition flag is kept |
| Bids.Bid.MarkAsDuringPartition | src/CarAuction.Domain/Models/Bids/Bid.cs:46-49 | the flag ends set whatever it was (idempotent); acceptance and reason are kept |
| Auctions.Auction.constructor | src/CarAuction.Domain/Models/Auctions/Auction.cs:26-45 | a new auction is a Draft at its starting price, version 0, no winner, no bids, with the given identity and times |
| Auctions.Auction.Start | src/CarAuction.Domain/Models/Auctions/Auction.cs:63-71 | succeeds exactly from Draft, giving Active at the starting price; otherwise fails with the source's message and changes nothing |
| Auctions.Auction.Pause | src/CarAuction.Domain/Models/Auctions/Auction.cs:73-80 | exactly Active to Paused, touching nothing else; any other state fails with the message and changes nothing |
| Auctions.Auction.Resume | src/CarAuction.Domain/Models/Auctions/Auction.cs:82-89 | exactly Paused to Active; any other state fails and changes nothing |
| Auctions.Auction.End | src/CarAuction.Domain/Models/Auctions/Auction.cs:91-98 | Active or Paused to Ended; any other state fails and changes nothing |
| Auctions.Auction.Cancel | src/CarAuction.Domain/Models/Auctions/Auction.cs:100-107 | every state but Ended, Cancelled included, goes to Cancelled; Ended fails and is kept |
| Auctions.Auction.TryPlaceBid | src/CarAuction.Domain/Models/Auctions/Auction.cs:109-126 | placed iff Active and amount strictly above the price; then the price rises to the amount, the bidder wins, exactly that bid is appended and the version grows by one; otherwise nothing changes |
| Auctions.Auction.UpdateWinningBid | src/CarAuction.Domain/Models/Auctions/Auction.cs:128-134 | price and winner are set with no state or monotonicity check; version grows by one; state and bids are kept |
| Auctions.Auction.ClearBids | src/CarAuction.Infrastructure/Data/Repositories/AuctionRepository.cs:71 | the bid list becomes empty; state, price, winner and version are kept |
| Auctions.Auction.AddBid | src/CarAuction.Domain/Models/Auctions/Auction.cs:136-139 | appends the bid and touches neither price, winner, state nor version |
| Auctions.InitialIsRatcheted | src/CarAuction.Domain/Models/Auctions/Auction.cs:26-45 | a new auction satisfies the ratchet invariant |
| Auctions.RatchetedPriceIsMaximum | src/CarAuction.Domain/Models/Auctions/Auction.cs:109-125 | under the ratchet the current price is at least every held bid's amount and the starting price |
| Auctions.DirectStepKeepsRatchet | src/CarAuction.Domain/Models/Auctions/Auction.cs:63-126 | every lifecycle transition and TryPlaceBid keeps the ratchet and never lowers the price |
| Auctions.DirectRunKeepsRatchet | src/CarAuction.Domain/Models/Auctions/Auction.cs:63-126 | over any sequence of such operations the ratchet holds and the price never decreases |
| Auctions.EndedIsFinal | src/CarAuction.Domain/Models/Auctions/Auction.cs:63-107 | once Ended, no sequence of operations changes the state |
| Auctions.VersionCountsPriceChanges | src/CarAuction.Domain/Models/Auctions/Auction.cs:117-133 | the version grows by exactly the number of effective TryPlaceBid and UpdateWinningBid calls |
| Partitions.PartitionEvent.constructor | src/CarAuction.Domain/Models/Partitions/PartitionEvent.cs:13-20 | a new incident is Healthy, not active, with no end time and the given regions and creation time |
| Partitions.PartitionEvent.StartPartition | src/CarAuction.Domain/Models/Partitions/PartitionEvent.cs:24-28 | from any status: Partitioned (active), end time kept |
| Partitions.PartitionEvent.BeginReconciliation | src/CarAuction.Domain/Models/Partitions/PartitionEvent.cs:30-34 | from any status: Reconciling (active), end time kept |
| Partitions.PartitionEvent.Resolve | src/CarAuction.Domain/Models/Partitions/PartitionEvent.cs:36-40 | from any status: Resolved with the end time set to now; no longer active |
| Partitions.PartitionEvent.ResetToHealthy | src/CarAuction.Domain/Models/Partitions/PartitionEvent.cs:42-46 | from any status: Healthy with the end time cleared |
| BidRepository.OfAuction | src/CarAuction.Infrastructure/Data/Repositories/BidRepository.cs:18 | exactly the auction's bids, each as often as stored |
| BidRepository.GetByAuctionId | src/CarAuction.Infrastructure/Data/Repositories/BidRepository.cs:16-20 | exactly the auction's stored bids, with their multiplicities, ordered by Sequence |
| BidRepository.DuringPartitionOf | src/CarAuction.Infrastructure/Data/Repositories/BidRepository.cs:54 | exactly the auction's bids flagged during partition and created before the deadline, each as often as stored |
| BidRepository.GetBidsMadeDuringPartitionWithinAuctionDeadline | src/CarAuction.Infrastructure/Data/Repositories/BidRepository.cs:52-56 | exactly those bids, with their multiplicities, ordered by CreatedAt |
| BidRepository.GetNextSequence | src/CarAuction.Infrastructure/Data/Repositories/BidRepository.cs:22-43 | returns the counter plus one (1 when the row is missing) and stores it; only this auction's counter changes |
| BidRepository.DrawsAreConsecutive | src/CarAuction.Infrastructure/Data/Repositories/BidRepository.cs:22-43 | n calls return c+1, ..., c+n (pairwise distinct), leave the counter at c+n and every other auction's counter as it was |
| BidRepository.AddAsync | src/CarAuction.Infrastructure/Data/Repositories/BidRepository.cs:45-50 | appends exactly the bid and returns its id; the other tables are kept |
| AuctionRepository.GetActiveAuctionsByRegion | src/CarAuction.Infrastructure/Data/Repositories/AuctionRepository.cs:18-21 | exactly the stored Active auctions of the region |
| AuctionRepository.GetAuctionsThatNeedsReconciliationByRegion | src/CarAuction.Infrastructure/Data/Repositories/AuctionRepository.cs:81-86 | exactly the stored Paused auctions of the region |
| AuctionRepository.ActiveAndNeedingReconciliationAreDisjoint | src/CarAuction.Infrastructure/Data/Repositories/AuctionRepository.cs:81-86 | no auction is in both by-region queries |
| AuctionRepository.GetByIdAsync | src/CarAuction.Infrastructure/Data/Repositories/AuctionRepository.cs:13-16 | None exactly for a missing id; otherwise a stored auction, whose id is the key in a consistent store |
| AuctionRepository.CreateAsync | src/CarAuction.Infrastructure/Data/Repositories/AuctionRepository.cs:23-38 | stores the auction and seeds its counter at 0 (so the first sequence is 1), returning its id; an id in use fails and stores nothing |
| AuctionRepository.UpdateAsync | src/CarAuction.Infrastructure/Data/Repositories/AuctionRepository.cs:40-54 | three outcomes: `true` for the stored object under its id; `false` for an id with no row, the concurrency failure that is caught; an uncaught already-tracked failure for a different object that carries a stored id |
| AuctionRepository.GetWithBidsAsync | src/CarAuction.Infrastructure/Data/Repositories/AuctionRepository.cs:57-79 | None for a missing id; otherwise the stored object with its bid list replaced by all its stored bids ordered by Sequence, state, price, winner and version kept |
| AuctionRepository.LoadBids | src/CarAuction.Infrastructure/Data/Repositories/AuctionRepository.cs:71-76 | after clearing and adding one by one, the list is exactly the given bids |
| PartitionEventRepository.ActiveEvents | src/CarAuction.Infrastructure/Data/Repositories/PartitionEventRepository.cs:21-24 | exactly the Partitioned or Reconciling incidents (of the region, when given) |
| PartitionEventRepository.NewestOf | src/CarAuction.Infrastructure/Data/Repositories/PartitionEventRepository.cs:25-26 | None exactly for an empty list; otherwise a member no other member is newer than |
| PartitionEventRepository.Newest | src/CarAuction.Infrastructure/Data/Repositories/PartitionEventRepository.cs:19-26 | None exactly when no incident is active; otherwise an active incident (of the region) no active one is newer than; Healthy and Resolved ones are never returned |
| PartitionEventRepository.GetCurrentPartitionAsync | src/CarAuction.Infrastructure/Data/Repositories/PartitionEventRepository.cs:12-17 | None iff no stored incident is active; otherwise the newest active one |
| PartitionEventRepository.GetCurrentPartitionByAuctionRegionAsync | src/CarAuction.Infrastructure/Data/Repositories/PartitionEventRepository.cs:19-26 | None iff the region has no active incident; otherwise the region's newest active one |
| PartitionEventRepository.ActiveFlags | src/CarAuction.Infrastructure/Data/Repositories/PartitionEventRepository.cs:22-23 | position by position, whether each incident is active |
| PartitionEventRepository.ActiveEventsByFlags | src/CarAuction.Infrastructure/Data/Repositories/PartitionEventRepository.cs:21-24 | the active list depends only on the incidents and their active flags |
| PartitionEventRepository.NewestByFlags | src/CarAuction.Infrastructure/Data/Repositories/PartitionEventRepository.cs:19-26 | so does the current incident: a status change that keeps every incident active or inactive keeps it |
| PartitionEventRepository.GetHistoryAsync | src/CarAuction.Infrastructure/Data/Repositories/PartitionEventRepository.cs:41-45 | exactly the incidents created at or after `since`, each as often as stored, newest first |
| PartitionEventRepository.AddAsync | src/CarAuction.Infrastructure/Data/Repositories/PartitionEventRepository.cs:28-33 | appends exactly the incident and returns its id |
| PartitionEventRepository.UpdateAsync | src/CarAuction.Infrastructure/Data/Repositories/PartitionEventRepository.cs:35-39 | succeeds exactly when the incident is one the table holds; otherwise fails with the no-row message |
| Simulation.PartitionSimulator.constructor | src/CarAuction.Infrastructure/Services/PartitionSimulator.cs:10-12 | not partitioned, no remembered incident |
| Simulation.PartitionSimulator.GetCurrentRegion | src/CarAuction.Infrastructure/Services/PartitionSimulator.cs:33-42 | EUWest when no partition was ever simulated |
| Simulation.PartitionSimulator.SimulatePartition | src/CarAuction.Infrastructure/Services/PartitionSimulator.cs:16-23 | stores one fresh Partitioned incident, remembers it, raises the flag; the region becomes its auction region; the previous incident is not resolved, so a region with an active incident then holds two |
| Simulation.PartitionSimulator.HealPartition | src/CarAuction.Infrastructure/Services/PartitionSimulator.cs:44-53 | resolves the remembered incident, if any, lowers the flag and keeps the remembered incident, so the reported region stays the same |
| Coordination.RegionCoordinator.constructor | src/CarAuction.Application/Services/RegionCoordinator.cs:9-19 | the remembered status starts Healthy, no notification raised |
| Coordination.RegionCoordinator.ExecuteInRegion | src/CarAuction.Application/Services/RegionCoordinator.cs:39-50 | runs the operation and returns its result exactly when reachable (the flag is down, whatever the region); otherwise fails with the not-reachable message |
| Coordination.RegionCoordinator.ObservedStatus | src/CarAuction.Application/Services/RegionCoordinator.cs:63-73 | Partitioned while the flag is up; else the newest active incident's status; Healthy exactly when there is none |
| Coordination.RegionCoordinator.AddPartition | src/CarAuction.Application/Services/RegionCoordinator.cs:122-146 | registers iff the region has no active incident: then exactly one fresh Partitioned incident is appended and one PartitionDetected raised; otherwise nothing changes (idempotent) |
| Coordination.AppendActiveKeepsAtMostOne | src/CarAuction.Application/Services/RegionCoordinator.cs:126-133 | such an append makes the new incident the region's current one and keeps at most one active incident per region |
| Coordination.NewIncident | src/CarAuction.Application/Services/RegionCoordinator.cs:130-131 | a fresh incident with the given regions, already Partitioned |
| Coordination.Transition | src/CarAuction.Application/Services/RegionCoordinator.cs:179-195 | the incident reaches the requested status through the transition of that name, with that transition's end time |
| Coordination.RegionCoordinator.UpdatePartitionByAuctionRegion | src/CarAuction.Application/Services/RegionCoordinator.cs:168-206 | fails with the not-found message iff the region has no active incident, changing nothing; otherwise returns that incident moved to the target status with that transition's end time; no other incident and no auction changes |
| Coordination.RegionCoordinator.GetPartitionStatusAsWritten | src/CarAuction.Application/Services/RegionCoordinator.cs:59-120 | result and remembered status are those of the tracker as written, including its failure when no incident is current |
| Coordination.AsWrittenFailsForeverAfterHeal | src/CarAuction.Application/Services/RegionCoordinator.cs:75-81 | as written, after a heal the query fails and keeps the old status, so it fails again on every later call |
| Coordination.RegionCoordinator.GetPartitionStatus | src/CarAuction.Application/Services/RegionCoordinator.cs:59-120 | with the null check: returns the observed status and remembers it; an unchanged status changes nothing; a change to Partitioned registers the current incident's regions unless that region already has an active incident; Partitioned to Healthy raises exactly one PartitionHealed with IsSolved set and stores nothing |
| Coordination.CorrectedTrackerCatchesUp | src/CarAuction.Application/Services/RegionCoordinator.cs:75-110 | the corrected tracker never fails, always records the observed status, registers iff the status changes to Partitioned and announces iff Partitioned turns Healthy |
| Coordination.CorrectionOnlyAffectsMissingIncident | src/CarAuction.Application/Services/RegionCoordinator.cs:78-81 | the correction agrees with the code whenever an incident is current |
| Coordination.AnnouncedHealFindsNoIncident | src/CarAuction.Application/Services/RegionCoordinator.cs:75-107 | even with the null check, an announced heal names the fallback region, which has no active incident, so the heal handler's update finds nothing |
| ConflictResolution.RegionBids | src/CarAuction.Application/Services/ConflictResolver.cs:18 | exactly the list's bids of the region, with their multiplicities |
| ConflictResolution.RegionalRanking | src/CarAuction.Application/Services/ConflictResolver.cs:18-33 | those bids ordered by CreatedAt, then Sequence |
| ConflictResolution.RegionalWinner | src/CarAuction.Application/Services/ConflictResolver.cs:36 | none exactly when the region has no bid; otherwise one of its bids |
| ConflictResolution.RegionalWinnerIsEarliest | src/CarAuction.Application/Services/ConflictResolver.cs:26-36 | no bid of the region precedes the regional winner in (CreatedAt, Sequence) |
| ConflictResolution.RejectAll | src/CarAuction.Application/Services/ConflictResolver.cs:39-40 | every listed bid ends rejected with the reason |
| ConflictResolution.AcceptFirst | src/CarAuction.Application/Services/ConflictResolver.cs:36-40 | a ranked bid ends accepted iff it is first and not listed again; the others carry the reason |
| ConflictResolution.ResolveConflictingBids | src/CarAuction.Application/Services/ConflictResolver.cs:9-50 | other regions' bids are untouched; a bid of the region ends accepted iff it is the regional winner listed once, otherwise rejected with the region's reason (empty list or no bid of the region: nothing changes) |
| ConflictResolution.AcceptedBids | src/CarAuction.Application/Services/ConflictResolver.cs:56 | exactly the listed bids that are accepted |
| ConflictResolution.FinalWinner | src/CarAuction.Application/Services/ConflictResolver.cs:65-69 | none exactly for no candidates; otherwise one of them |
| ConflictResolution.FinalWinnerIsHighest | src/CarAuction.Application/Services/ConflictResolver.cs:65-69 | the winner has the highest amount; ties go to the earliest, then the lowest sequence |
| ConflictResolution.RejectOthers | src/CarAuction.Application/Services/ConflictResolver.cs:75-78 | every listed bid but the kept one ends rejected with the reason; the kept one is untouched |
| ConflictResolution.DetermineFinalWinner | src/CarAuction.Application/Services/ConflictResolver.cs:52-87 | returns the final winner of the bids accepted on entry (none iff none was); it ends accepted, the other formerly accepted bids rejected as lost globally, and bids not accepted on entry keep status and reason |
| ConflictResolution.AcceptedBidsMatchFilter | src/CarAuction.Application/Services/ConflictResolver.cs:56 | when acceptance matches a predicate, the accepted bids are the filter by it |
| ConflictResolution.RegionalSurvivors | src/CarAuction.Application/Services/AuctionService.cs:210-213 | exactly the bids the regional stage leaves accepted |
| ConflictResolution.ReconciledWinnerSurvives | src/CarAuction.Application/Services/AuctionService.cs:210-216 | a reconciled winner exists iff some bid survives its region, and it is one of the survivors |
| ConflictResolution.ReconciledWinnerIsHighestSurvivor | src/CarAuction.Application/Services/AuctionService.cs:210-216 | it has the highest amount among the survivors and is listed once |
| ConflictResolution.EarliestBeatsHigherInSameRegion | src/CarAuction.Application/Services/ConflictResolver.cs:26-36 | of two bids of one region, the earlier lower one wins over the later higher one |
| ConflictResolution.EarliestListedOnceSurvives | src/CarAuction.Application/Services/ConflictResolver.cs:26-40 | a bid listed once and strictly earlier than every other bid of its region survives the regional stage |
| ConflictResolution.SoleSurvivorWins | src/CarAuction.Application/Services/AuctionService.cs:210-216 | a bid that is the only survivor of the regional stages is the reconciled winner |
| ConflictResolution.EarliestOfOneRegionWins | src/CarAuction.Application/Services/AuctionService.cs:210-216 | when all bids come from one region, its earliest bid, listed once, is the reconciled winner whatever the amounts |
| BidOrdering.GetNextBidSequence | src/CarAuction.Application/Services/BidOrderingService.cs:15-26 | returns the repository's next sequence unchanged |
| BidOrdering.ValidateBidOrder | src/CarAuction.Application/Services/BidOrderingService.cs:28-64 | valid iff the auction exists and the amount is strictly above its price; the not-found and too-low reasons otherwise; a valid verdict has an empty reason and the bid's own sequence |
| BidOrdering.ValidationAgreesWithRatchet | src/CarAuction.Application/Services/BidOrderingService.cs:44-51 | on an Active stored auction validation accepts exactly what its ratchet takes |
| BidOrdering.GetOrderedBids | src/CarAuction.Application/Services/BidOrderingService.cs:66-84 | exactly the auction's bids in the time window (all without one), with multiplicities, ordered by Sequence then CreatedAt |
| Service.RouteOf | src/CarAuction.Application/Services/AuctionService.cs:95-126 | the placement branch: a failed status query, Partitioned status, the AP queue, the CP refusal and the in-region path, each under its exact condition |
| Service.RealCoordinatorNeverQueues | src/CarAuction.Application/Services/AuctionService.cs:95-104 | with the real coordinator's answers neither the queue nor the CP refusal is ever chosen |
| Service.MergeForReconciliation | src/CarAuction.Application/Services/AuctionService.cs:202-206 | every loaded and every queued bid, with multiplicities summed (no deduplication), ordered by CreatedAt then Sequence |
| Service.QueuedBidsNeverWin | src/CarAuction.Application/Services/AuctionService.cs:202-206 | a queued bid occurs at least twice in the merged list, so it never survives its region and never wins |
| Service.ResolveByRegion | src/CarAuction.Application/Services/AuctionService.cs:210-213 | after every region's stage, a bid is accepted iff it survives its region, with the matching reason |
| Service.ResolveAndPickWinner | src/CarAuction.Application/Services/AuctionService.cs:210-216 | returns the reconciled winner of the list; every listed bid ends accepted iff it is that winner, otherwise with the reason of the stage it lost (its region, or lost globally) |
| Service.ResolveMerged | src/CarAuction.Application/Services/AuctionService.cs:202-216 | on the merged list of loaded and queued bids: returns its reconciled winner, and every loaded and every queued bid ends accepted iff it is that winner, with the reason of the stage it lost |
| Service.Settle | src/CarAuction.Application/Services/AuctionService.cs:224-231 | a Paused auction ends when past due and resumes otherwise; price, winner, version and bids are kept |
| Service.ApplyReconciled | src/CarAuction.Application/Services/AuctionService.cs:219-231 | a reported winner becomes price and winner with one version step, no winner keeps them; then a Paused auction is settled; its bid list and the bids themselves are kept |
| Service.ReconcileQueued | src/CarAuction.Application/Services/AuctionService.cs:202-242 | reports all merged bids and the reconciled winner, every loaded and queued bid ends accepted iff it is that winner with its stage's reason, the winner is written and the auction settled |
| Service.ReconcileLoaded | src/CarAuction.Application/Services/AuctionService.cs:176-242 | without queued bids: settles the auction, touches no bid and reports 0 bids with the auction's own winner and price; otherwise as ReconcileQueued |
| Service.ResolveAndReport | src/CarAuction.Application/Services/AuctionService.cs:202-242 | resolves the loaded and queued bids as ResolveMerged states and returns the report of their reconciled winner, counting every merged bid |
| Service.ReconciliationCanLowerPrice | src/CarAuction.Application/Services/AuctionService.cs:219-222 | three bids of one region where the earliest bids less than a later one: reconciliation reports the earliest one's amount, below the later bid's |
| Service.AuctionService.constructor | src/CarAuction.Application/Services/AuctionService.cs:21-38 | the service and its coordinator share the store |
| Service.AuctionService.CreateAuction | src/CarAuction.Application/Services/AuctionService.cs:40-64 | stores exactly one fresh auction, Active at its starting price, version 0, no winner, no bids, with its counter at 0; an id in use fails |
| Service.AuctionService.GetAuction | src/CarAuction.Application/Services/AuctionService.cs:142-160 | the stored auction (None iff missing); a strong read reloads its bids from the store, an eventual read keeps its list |
| Service.AuctionService.PlaceInRegion | src/CarAuction.Application/Services/AuctionService.cs:251-303 | unreachable: fails, consuming nothing. Otherwise exactly one fresh bid with the next sequence is stored. It is accepted iff it passes validation and the ratchet, with the reason of the check it failed; an accepted bid becomes price and winner |
| Service.AuctionService.QueueBid | src/CarAuction.Application/Services/AuctionService.cs:324-335 | the sequence is taken. The auction is paused, or the method fails if it was not Active. The fresh bid is flagged, not accepted, and stored |
| Service.AuctionService.HandlePartitionedBid | src/CarAuction.Application/Services/AuctionService.cs:317-347 | not Active: fails with Pause's message, stores and notifies nothing. Otherwise the fresh bid with the next sequence is stored flagged and not accepted, the auction is paused with price, winner and version untouched, and the partition is registered (one Partitioned incident appended, one PartitionDetected raised) unless the region already has an active incident; success "queued"; the remembered status is kept |
| Service.AuctionService.PlaceBid | src/CarAuction.Application/Services/AuctionService.cs:66-140 | not found and not active fail with their messages; past due ends the auction; then each route's outcome (`RouteOutcome`), measured from the auction as loaded with its stored bids. Only the queue and in-region paths take a sequence or store a bid. Without a bid no incident, notification, price, winner or version changes and the state only changes by the past-due end. The queue path only pauses the auction (version and loaded bid list kept) and registers the partition unless one is active. In-region keeps the auction Active and accepts iff the amount is above the price; then price, winner, the bid appended to the loaded list and a version step of one, and otherwise no change |
| Service.AuctionService.PlaceLoaded | src/CarAuction.Application/Services/AuctionService.cs:78-134 | on the loaded stored auction: not Active fails with its state and changes nothing; past due ends it and changes nothing else; otherwise each route's outcome as `RouteOutcome` states it, with the same frames |
| Service.AuctionService.PlaceOnRoute | src/CarAuction.Application/Services/AuctionService.cs:93-134 | for a stored Active auction, each route's outcome as `RouteOutcome` states it: the result, and the auction's full new view (paused only on the queue route; on the in-region route price, winner, appended bid and version step iff accepted, state kept Active); with the same frames as PlaceBid |
| Service.AuctionService.LoadPaused | src/CarAuction.Application/Services/AuctionService.cs:167-173 | the auction with all its stored bids iff it is stored and Paused; no bid changes; a stored auction, Paused or not, keeps state, price, winner and version and has its bid list replaced by its stored bids in Sequence order |
| Service.AuctionService.LoadForReconciliation | src/CarAuction.Application/Services/AuctionService.cs:167-176 | that, plus its bids queued during the partition before its end time; both lists hold only stored bids of that auction. Without a Paused auction no bid changes, and a stored auction that is not Paused still has its bid list reloaded, with every other field kept |
| Service.AuctionService.Reconcile | src/CarAuction.Application/Services/AuctionService.cs:162-249 | not Paused or missing: not reconciled and no bid changes; a stored auction keeps state, price, winner and version, but its bid list is reloaded with its stored bids in Sequence order. Otherwise: no queued bids gives the auction's own report and touches no bid; with queued bids, all merged bids are counted (no deduplication), every bid ends accepted iff it is the reconciled winner with its stage's reason, and that winner becomes price and winner. The auction ends when past due, else resumes. Only this auction and its bids can change |
| Service.AuctionService.ReconcilePaused | src/CarAuction.Application/Services/AuctionService.cs:176-242 | for a Paused auction holding exactly its stored bids: the reconciliation Reconcile states; only that auction and its bids can change, and no bid changes without queued bids |
| Service.AuctionService.OnPartitionDetected | src/CarAuction.Application/Services/AuctionService.cs:354-382 | every Active auction of the region is paused and nothing else changes; none stays Active; all the paused ones now await reconciliation |
| Service.AuctionService.MarkReconciling | src/CarAuction.Application/Services/AuctionService.cs:391 | fails iff the region has no active incident, changing none; otherwise that incident is Reconciling with its end time kept and stays current, and every other incident keeps its status and end time; no auction and no bid changes |
| Service.AuctionService.UpdateIncident | src/CarAuction.Application/Services/AuctionService.cs:391 | the coordinator's update as the heal sees it: fails iff the region has no active incident; otherwise only that incident changes, to the target status with that transition's end time (now for Resolved, none for Healthy, kept for an active status); no auction and no bid changes |
| Service.AuctionService.TransitionIncident | src/CarAuction.Application/Services/RegionCoordinator.cs:168-206 | the coordinator's update with its frame: only the region's current incident changes, to the target status with that transition's end time, and the store, its auctions and its bids are untouched |
| Service.AuctionService.ReconcileAfterHeal | src/CarAuction.Application/Services/AuctionService.cs:404 | a Paused stored auction is reconciled as `Reconcile` states (its report, its bids' outcomes, its price and winner) and ends when past due, resumes otherwise; only that auction and its own bids can change |
| Service.AuctionService.ResumeAfterHeal | src/CarAuction.Application/Services/AuctionService.cs:404 | a Paused stored auction ends when past due and resumes otherwise; only that auction and its own bids can change |
| Service.AuctionService.ResumeAll | src/CarAuction.Application/Services/AuctionService.cs:398-408 | every auction awaiting reconciliation in the region ends when past due and resumes otherwise; only those auctions and their bids can change |
| Service.AuctionService.ReconcileRegion | src/CarAuction.Application/Services/AuctionService.cs:398-408 | every Paused auction of the region is ended or resumed, every other auction is unchanged, no incident changes, and none of the region stays Paused; every bid that does not belong to a formerly Paused auction of the region keeps its acceptance, reason and partition flag |
| Service.AuctionService.ResolveIncident | src/CarAuction.Application/Services/AuctionService.cs:410 | the current incident is Resolved with its end time; every other incident keeps its status and end time; no auction and no bid is touched |
| Service.AuctionService.FinishHeal | src/CarAuction.Application/Services/AuctionService.cs:398-410 | after reconciling the region its incident is Resolved at `now` and every other incident keeps its status and end time; each Paused auction of the region is ended or resumed, no other auction changes, none of the region stays Paused; only bids of those Paused auctions can change |
| Service.AuctionService.OnPartitionHealed | src/CarAuction.Application/Services/AuctionService.cs:384-418 | fails with the not-found message iff the region had no active incident, changing no incident and no auction; otherwise that incident ends Resolved at `now` and every other incident keeps its status and end time, each Paused auction of the region is ended or resumed, every other auction is unchanged and none of the region stays Paused. On both outcomes only bids of the region's formerly Paused auctions can change; on failure none does |
| Service.AuctionService.RestorePartitioned | src/CarAuction.Application/Services/AuctionService.cs:412-417 | with no active incident in the region, the fallback update back to Partitioned changes no incident and no auction |

## Left out

- Vehicles, the context's mapping configuration, logging, Guid generation (ids are parameters), decimal arithmetic (amounts are `int`) and the audit timestamps `UpdatedAt`/`UpdateAt`, which nothing in the core reads.
- Decimal formatting: the amount in a validation reason is an integer rendered in decimal digits; the currency's fractional digits are not modelled.
- The simulator's auto-heal timer (`Task.Run` plus `Task.Delay`): a heal is an explicit `HealPartition` call.
- Time zones and the clock: past due is `endTime < now`, with `now` read in the auction's time zone by the caller.
- Event delivery:
  - The handlers are `async void` subscribers. Their bodies are `OnPartitionDetected` and `OnPartitionHealed`.
  - The coordinator records a raised notification in its `notifications` log and does not call the handlers.
  - Their concurrency with other calls is not modelled.
- The region enumeration's file is not part of this model. The model assumes its two members are declared `USEast` then `EUWest`. Two things depend on that assumed order: `FallbackRegion` (the enumeration's default value) and the order in which a reconciliation resolves the regions (src/CarAuction.Application/Services/AuctionService.cs:210).
- `SetCurrentRegion` does not exist in the simulator and is not modelled. The bidder's region is a parameter of `PlaceBid`.
- AuctionRepository.CreateAsync: the failure for an id already in use (the context's "already being tracked" error) only arises because ids are parameters. With generated Guids the source never meets it.
- The bid repository's `GetByIdAsync` is not part of this model: no core operation uses it.
- Service.AuctionService.PlaceBid: the coordinator's status and reachability answers and the bidder's region are parameters rather than calls. Of the exceptions the catch-all turns into a failure, only the status query's is modelled. `RealCoordinatorNeverQueues` relates the parameters to the real coordinator. The status query's own effect is not performed: it records the remembered status (src/CarAuction.Application/Services/RegionCoordinator.cs:109). The clause that `PlaceBid` keeps the remembered status holds only because the query is a parameter.
- ConflictResolution.ResolveConflictingBids: `List.Sort` is unstable. The model sorts stably, so distinct bids of one region with equal (CreatedAt, Sequence) are ranked by list position.
- AuctionRepository.UpdateAsync: the Version concurrency token is not modelled, because a conflicting write from a second context needs concurrency. Its three outcomes are modelled. The stored object saves and gives `true`. An id with no row gives `false`, the caught concurrency failure. A different object carrying a stored id gives the uncaught already-tracked failure. Every call in the service passes the stored object.
- PartitionEventRepository.UpdateAsync: it saves the tracked object, so it succeeds exactly for an incident the table holds. A replacement by id from an untracked copy is not modelled.
- Coordination.RegionCoordinator.AddPartition: its contract does not state that at most one active incident per region is preserved. That fact is stated on incident sequences by `AppendActiveKeepsAtMostOne`, and the contract states the "only when none is active" condition it needs.
- Service.AuctionService.Reconcile: the catch-all that reports failure (`AuctionService.cs:244-248`) is not modelled. No modelled step throws there once the auction is found Paused.
- Service.AuctionService.OnPartitionHealed: its contract states the incident's outcome, that each Paused auction of the region is ended or resumed, and that every other auction is unchanged. It does not restate each reconciled auction's price, winner and bid outcomes; those are stated for one auction by `ReconcileAfterHeal` and `Reconcile`, which the heal loop calls. `ReconcileRegion` states the region-wide frame only.
- Service.AuctionService.OnPartitionHealed: the fallback update to Partitioned fails for the same reason as the first one, and its exception leaves an `async void` method. This is modelled as a `Fail` outcome.
- Service.AuctionService.ResumeAfterHeal: states only that the auction is ended or resumed and what may change. Its reconciled price, winner and bid outcomes are stated by `ReconcileAfterHeal`, which it calls.
- Service.AuctionService.ResumeAll: states per auction only the end-or-resume and the frame. It does not carry each auction's reconciled price, winner and bid outcomes through the loop; `ReconcileAfterHeal` states them for one auction.
- Service.AuctionService.ReconcileRegion: the same as `ResumeAll`. It states the region-wide frame only, not each auction's reconciled price, winner and bid outcomes.
- Service.AuctionService.FinishHeal: the same as `ReconcileRegion` for the auctions, plus the incident's outcome.
- Auctions.Auction: `UpdateTimes` and `UpdatePricing` (src/CarAuction.Domain/Models/Auctions/Auction.cs:49-61) are not modelled. No operation of the core calls them, so the start and end times and the two prices are `const`. A test reaches a past-due auction through `UpdateTimes`; in the model an auction is past due when its end time is before `now`.
- Service.AuctionService.OnPartitionDetected: the catch-all is not modelled. With the auction found Active, `Pause` does not throw.

## Findings

| source | as written | input that shows it | evidently intended | confidence | as-written member | corrected member |
|---|---|---|---|---|---|---|
| src/CarAuction.Application/Services/RegionCoordinator.cs:78-81 | on a status change the regions of the current incident are read with no null check | remembered status Partitioned. The simulated partition has been healed: flag down, its incident Resolved, no incident active. The lookup yields null and the member access throws, and the remembered status stays Partitioned. So every later query throws again, and the heal branch at :87-107 never runs | when no incident is current, fall back to the regions' default value, the enumeration's first member `USEast` (the later `?.` accesses at :99 and :102 expect null), so the status becomes Healthy and the heal is announced. Even so the announced region has no active incident, so the healed handler's first update fails (`Coordination.AnnouncedHealFindsNoIncident`, and the failure case of `OnPartitionHealed`) | high; not executed | Coordination.RegionCoordinator.GetPartitionStatusAsWritten, Coordination.AsWrittenFailsForeverAfterHeal | Coordination.RegionCoordinator.GetPartitionStatus, Coordination.CorrectedTrackerCatchesUp |
