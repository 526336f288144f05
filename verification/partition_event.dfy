/** A partition incident between the region a bid came from and the region of
    the auction it was aimed at. */
module Partitions {
  import opened Common

  /** Partitioned and Reconciling incidents are the "current" ones: the
      repository lookups return only these. */
  predicate IsActiveStatus(s: PartitionStatus) {
    s == Partitioned || s == Reconciling
  }

  class PartitionEvent {
    const id: nat
    const originBidRegion: Region
    const auctionRegion: Region
    const createdAt: int
    var status: PartitionStatus
    var endTime: Option<int>

    /** A Resolved incident always carries the time it was resolved. */
    ghost predicate Valid()
      reads this
    {
      status == Resolved ==> endTime.Some?
    }

    predicate IsActive()
      reads this
    {
      IsActiveStatus(status)
    }

    /** A new incident is Healthy and open-ended. `id` stands for the generated
        Guid and `now` for the clock reading. */
    constructor (id: nat, originBidRegion: Region, auctionRegion: Region, now: int)
      ensures this.id == id && this.originBidRegion == originBidRegion
      ensures this.auctionRegion == auctionRegion && createdAt == now
      ensures status == Healthy && endTime == None
      ensures Valid() && !IsActive()
    {
      this.id := id;
      this.originBidRegion := originBidRegion;
      this.auctionRegion := auctionRegion;
      createdAt := now;
      status := Healthy;
      endTime := None;
    }

    /** No transition looks at the current status: each is legal from every
        state, and none touches the regions. */
    method StartPartition()
      modifies this
      ensures status == Partitioned && endTime == old(endTime)
      ensures Valid() && IsActive()
    {
      status := Partitioned;
    }

    method BeginReconciliation()
      modifies this
      ensures status == Reconciling && endTime == old(endTime)
      ensures Valid() && IsActive()
    {
      status := Reconciling;
    }

    method Resolve(now: int)
      modifies this
      ensures status == Resolved && endTime == Some(now)
      ensures Valid() && !IsActive()
    {
      status := Resolved;
      endTime := Some(now);
    }

    method ResetToHealthy()
      modifies this
      ensures status == Healthy && endTime == None
      ensures Valid() && !IsActive()
    {
      status := Healthy;
      endTime := None;
    }
  }
}
