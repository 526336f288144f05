/** A bid on an auction. Identity, bidder, amount, origin region, sequence and
    creation time are fixed at construction; only the acceptance status, the
    rejection reason and the during-partition flag change afterwards. */
module Bids {
  import opened Common

  class Bid {
    const id: nat
    const auctionId: nat
    const bidderId: nat
    const amount: int
    const originRegion: Region
    const sequence: int
    const createdAt: int
    var isAccepted: bool
    var rejectionReason: string
    var isDuringPartition: bool

    /** A fresh bid: not accepted, not queued during a partition, no reason.
        `id` and `createdAt` stand for the generated Guid and the clock. */
    constructor (id: nat, auctionId: nat, bidderId: nat, amount: int, originRegion: Region,
                 sequence: int, createdAt: int)
      ensures this.id == id && this.auctionId == auctionId && this.bidderId == bidderId
      ensures this.amount == amount && this.originRegion == originRegion
      ensures this.sequence == sequence && this.createdAt == createdAt
      ensures !isAccepted && !isDuringPartition && rejectionReason == ""
    {
      this.id := id;
      this.auctionId := auctionId;
      this.bidderId := bidderId;
      this.amount := amount;
      this.originRegion := originRegion;
      this.sequence := sequence;
      this.createdAt := createdAt;
      isAccepted := false;
      isDuringPartition := false;
      rejectionReason := "";
    }

    method Accept()
      modifies this
      ensures isAccepted && rejectionReason == ""
      ensures isDuringPartition == old(isDuringPartition)
    {
      isAccepted := true;
      rejectionReason := "";
    }

    method Reject(reason: string)
      modifies this
      ensures !isAccepted && rejectionReason == reason
      ensures isDuringPartition == old(isDuringPartition)
    {
      isAccepted := false;
      rejectionReason := reason;
    }

    /** Idempotent: the flag ends set whatever it was. */
    method MarkAsDuringPartition()
      modifies this
      ensures isDuringPartition
      ensures isAccepted == old(isAccepted) && rejectionReason == old(rejectionReason)
    {
      isDuringPartition := true;
    }
  }
}
