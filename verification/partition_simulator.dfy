/** The switch that simulates a network partition, without its auto-heal
    timer. */
module Simulation {
  import opened Common
  import opened Partitions
  import opened Store
  import PartitionEventRepository

  /** The region reported when no partition was ever simulated. */
  const DefaultRegion: Region := EUWest

  class PartitionSimulator {
    const db: Database
    var isPartitioned: bool
    var currentPartition: PartitionEvent?

    /** The remembered incident is always one the store holds. */
    ghost predicate Valid()
      reads this, db
    {
      currentPartition != null ==> currentPartition in db.events
    }

    constructor (db: Database)
      ensures this.db == db && !isPartitioned && currentPartition == null
      ensures Valid()
    {
      this.db := db;
      isPartitioned := false;
      currentPartition := null;
    }

    /** The auction region of the last simulated partition, kept after it is
        healed; the default region when none was simulated. */
    function GetCurrentRegion(): (r: Region)
      reads this
      ensures currentPartition == null ==> r == DefaultRegion
    {
      if currentPartition != null then currentPartition.auctionRegion else DefaultRegion
    }

    /** Creates a Partitioned incident, stores it and raises the flag. The
        previously remembered incident is neither resolved nor changed. */
    method SimulatePartition(originRegion: Region, auctionRegion: Region, now: int, eventId: nat)
      requires Valid()
      modifies this, db
      ensures Valid()
      ensures isPartitioned
      ensures currentPartition != null && fresh(currentPartition)
      ensures currentPartition.originBidRegion == originRegion && currentPartition.auctionRegion == auctionRegion
      ensures currentPartition.id == eventId && currentPartition.createdAt == now
      ensures currentPartition.status == Partitioned && currentPartition.endTime == None
      ensures db.events == old(db.events) + [currentPartition]
      ensures db.auctions == old(db.auctions) && db.bids == old(db.bids) && db.sequences == old(db.sequences)
      ensures GetCurrentRegion() == auctionRegion
      ensures old(PartitionEventRepository.GetCurrentPartitionByAuctionRegionAsync(db, auctionRegion)).Some? ==>
        !PartitionEventRepository.AtMostOneActivePerRegion(db.events)
    {
      ghost var prior := PartitionEventRepository.GetCurrentPartitionByAuctionRegionAsync(db, auctionRegion);
      ghost var before := db.events;
      var e := new PartitionEvent(eventId, originRegion, auctionRegion, now);
      e.StartPartition();
      var _ := PartitionEventRepository.AddAsync(db, e);
      currentPartition := e;
      isPartitioned := true;
      if prior.Some? {
        var i :| 0 <= i < |before| && before[i] == prior.value;
        assert db.events[i] == prior.value && db.events[|before|] == e;
      }
    }

    /** Resolves and saves the remembered incident, if any, and lowers the
        flag. The incident stays remembered. */
    method HealPartition(now: int)
      requires Valid()
      modifies this, currentPartition
      ensures Valid()
      ensures !isPartitioned
      ensures currentPartition == old(currentPartition)
      ensures currentPartition != null ==> currentPartition.status == Resolved && currentPartition.endTime == Some(now)
      ensures GetCurrentRegion() == old(GetCurrentRegion())
    {
      if currentPartition != null {
        currentPartition.Resolve(now);
        var _ := PartitionEventRepository.UpdateAsync(db, currentPartition);
      }
      isPartitioned := false;
    }
  }
}
