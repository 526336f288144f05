/** Sequence assignment, amount validation and the ordered bid query. */
module BidOrdering {
  import opened Common
  import opened Sorting
  import opened Bids
  import opened Auctions
  import opened Store
  import BidRepository
  import AuctionRepository

  /** The verdict on a bid: valid with the sequence it carries, or invalid
      with a reason (and sequence 0, the default). */
  datatype BidAcceptance = BidAcceptance(isValid: bool, reason: string, assignedSequence: int)

  const AuctionNotFound: string := "Auction not found"

  /** The reason the placement path gives when the ratchet refuses a bid. */
  const AmountNotAbovePrice: string := "Bid amount must be higher than current price"

  /** The reason validation gives, naming the current price. */
  function AmountTooLow(price: int): string {
    AmountNotAbovePrice + " of " + IntToString(price)
  }

  /** The next sequence number of the auction, straight from the counter. */
  method GetNextBidSequence(db: Database, auctionId: nat) returns (n: int)
    modifies db
    ensures n == BidRepository.CurrentSequence(old(db.sequences), auctionId) + 1
    ensures db.sequences == BidRepository.Advance(old(db.sequences), auctionId)
    ensures db.auctions == old(db.auctions) && db.bids == old(db.bids) && db.events == old(db.events)
  {
    n := BidRepository.GetNextSequence(db, auctionId);
  }

  /** Validation against the stored auction: it must exist and the amount
      must be strictly above its current price. The state is not looked at. */
  function ValidateBidOrder(db: Database, auctionId: nat, bid: Bid): (r: BidAcceptance)
    reads db`auctions, db.auctions.Values
    ensures r.isValid <==> auctionId in db.auctions && bid.amount > db.auctions[auctionId].currentPrice
    ensures auctionId !in db.auctions ==> r == BidAcceptance(false, AuctionNotFound, 0)
    ensures auctionId in db.auctions && !r.isValid ==>
      r == BidAcceptance(false, AmountTooLow(db.auctions[auctionId].currentPrice), 0)
    ensures r.isValid ==> r.reason == "" && r.assignedSequence == bid.sequence
  {
    match AuctionRepository.GetByIdAsync(db, auctionId)
    case None => BidAcceptance(false, AuctionNotFound, 0)
    case Some(auction) =>
      if bid.amount <= auction.currentPrice then BidAcceptance(false, AmountTooLow(auction.currentPrice), 0)
      else BidAcceptance(true, "", bid.sequence)
  }

  /** On an Active stored auction, validation accepts exactly the bids the
      auction's own ratchet would take. */
  lemma ValidationAgreesWithRatchet(db: Database, auctionId: nat, bid: Bid)
    requires auctionId in db.auctions && db.auctions[auctionId].state == Active
    ensures ValidateBidOrder(db, auctionId, bid).isValid <==>
      Allowed(db.auctions[auctionId].View(), TryPlaceBidOp(bid))
  {
  }

  /** OrderBy(Sequence).ThenBy(CreatedAt). */
  function SequenceThenTime(b: Bid): Key {
    Key(b.sequence, b.createdAt, 0)
  }

  /** Whether a bid falls in the optional time window. */
  predicate InWindow(b: Bid, since: Option<int>) {
    since.Some? ==> b.createdAt >= since.value
  }

  /** The auction's stored bids created at or after `since` (all of them
      without `since`), each as often as stored, ordered by Sequence, then
      CreatedAt. */
  function GetOrderedBids(db: Database, auctionId: nat, since: Option<int>): (r: seq<Bid>)
    reads db`bids
    ensures forall b :: b in r ==> b in db.bids && b.auctionId == auctionId && InWindow(b, since)
    ensures forall b :: b in db.bids && b.auctionId == auctionId && InWindow(b, since) ==> b in r
    ensures forall b :: b in db.bids && b.auctionId == auctionId && InWindow(b, since) ==>
      multiset(r)[b] == multiset(db.bids)[b]
    ensures SortedBy(r, SequenceThenTime)
  {
    var bids := BidRepository.GetByAuctionId(db, auctionId);
    var kept := Filter(bids, (b: Bid) => InWindow(b, since));
    assert forall b :: b in db.bids && b.auctionId == auctionId ==>
      multiset(bids)[b] == multiset(db.bids)[b] by {
      forall b | b in db.bids && b.auctionId == auctionId
        ensures multiset(bids)[b] == multiset(db.bids)[b]
      {
        assert multiset(bids)[b] == multiset(BidRepository.OfAuction(db.bids, auctionId))[b];
      }
    }
    SortBy(kept, SequenceThenTime)
  }
}
