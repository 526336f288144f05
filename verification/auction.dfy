/** An auction: a lifecycle state machine plus the price ratchet that bids
    placed directly on it drive. */
module Auctions {
  import opened Common
  import opened Bids

  /** The mutable part of an auction together with its starting price. */
  datatype AuctionView = AuctionView(
    state: AuctionState,
    startingPrice: int,
    currentPrice: int,
    winningBidderId: Option<nat>,
    version: int,
    bids: seq<Bid>)

  /** The operations of `Auction` that change it. */
  datatype AuctionOp =
    | StartOp
    | PauseOp
    | ResumeOp
    | EndOp
    | CancelOp
    | TryPlaceBidOp(bid: Bid)
    | UpdateWinningBidOp(amount: int, bidderId: nat)
    | AddBidOp(bid: Bid)

  /** The messages of the exceptions the lifecycle transitions throw. */
  const StartError: string := "Can only start auctions in draft state"
  const PauseError: string := "Can only pause active auctions"
  const ResumeError: string := "Can only resume paused auctions"
  const EndError: string := "Can only end active or paused auctions"
  const CancelError: string := "Cannot cancel ended auction"

  /** The state of a newly constructed auction. */
  function Initial(startingPrice: int): AuctionView {
    AuctionView(Draft, startingPrice, startingPrice, None, 0, [])
  }

  /** Whether `op` takes effect on `v`; when it does not, the operation throws
      (or, for TryPlaceBid, returns false) and leaves the auction as it was. */
  predicate Allowed(v: AuctionView, op: AuctionOp) {
    match op
    case StartOp => v.state == Draft
    case PauseOp => v.state == Active
    case ResumeOp => v.state == Paused
    case EndOp => v.state == Active || v.state == Paused
    case CancelOp => v.state != Ended
    case TryPlaceBidOp(b) => v.state == Active && b.amount > v.currentPrice
    case UpdateWinningBidOp(_, _) => true
    case AddBidOp(_) => true
  }

  /** The auction after `op`. */
  function Step(v: AuctionView, op: AuctionOp): AuctionView {
    if !Allowed(v, op) then v
    else match op
      case StartOp => v.(state := Active, currentPrice := v.startingPrice)
      case PauseOp => v.(state := Paused)
      case ResumeOp => v.(state := Active)
      case EndOp => v.(state := Ended)
      case CancelOp => v.(state := Cancelled)
      case TryPlaceBidOp(b) =>
        v.(currentPrice := b.amount, winningBidderId := Some(b.bidderId),
           bids := v.bids + [b], version := v.version + 1)
      case UpdateWinningBidOp(amount, bidder) =>
        v.(currentPrice := amount, winningBidderId := Some(bidder), version := v.version + 1)
      case AddBidOp(b) => v.(bids := v.bids + [b])
  }

  /** The auction after the operations `ops`, applied in order. */
  function Run(v: AuctionView, ops: seq<AuctionOp>): AuctionView
    decreases |ops|
  {
    if ops == [] then v else Run(Step(v, ops[0]), ops[1..])
  }

  /** Operations that only move the auction through its lifecycle or place bids
      through the ratchet: everything except UpdateWinningBid and AddBid. */
  predicate Direct(op: AuctionOp) {
    !op.UpdateWinningBidOp? && !op.AddBidOp?
  }

  /** The price ratchet: the bids held are exactly those placed through
      TryPlaceBid, in strictly increasing amount, all above the starting price;
      the current price and the winner are those of the last (highest) one, or
      the starting price and no winner when there is none; the version counts
      the bids; a Draft auction holds no bid. */
  ghost predicate Ratcheted(v: AuctionView) {
    && (forall i, j :: 0 <= i < j < |v.bids| ==> v.bids[i].amount < v.bids[j].amount)
    && (forall i :: 0 <= i < |v.bids| ==> v.startingPrice < v.bids[i].amount)
    && (v.bids == [] ==> v.currentPrice == v.startingPrice && v.winningBidderId == None)
    && (v.bids != [] ==>
          v.currentPrice == v.bids[|v.bids| - 1].amount &&
          v.winningBidderId == Some(v.bids[|v.bids| - 1].bidderId))
    && v.version == |v.bids|
    && (v.state == Draft ==> v.bids == [])
  }

  lemma InitialIsRatcheted(startingPrice: int)
    ensures Ratcheted(Initial(startingPrice))
  {
  }

  /** Under the ratchet the current price is the highest amount ever placed. */
  lemma {:induction false} RatchetedPriceIsMaximum(v: AuctionView, i: nat)
    requires Ratcheted(v) && i < |v.bids|
    ensures v.bids[i].amount <= v.currentPrice
    ensures v.startingPrice <= v.currentPrice
  {
    if i < |v.bids| - 1 {
      assert v.bids[i].amount < v.bids[|v.bids| - 1].amount;
    }
  }

  /** One direct operation keeps the ratchet and never lowers the price. */
  lemma {:induction false} DirectStepKeepsRatchet(v: AuctionView, op: AuctionOp)
    requires Ratcheted(v) && Direct(op)
    ensures Ratcheted(Step(v, op))
    ensures v.currentPrice <= Step(v, op).currentPrice
  {
    var w := Step(v, op);
    if Allowed(v, op) && op.TryPlaceBidOp? {
      if v.bids != [] {
        forall i | 0 <= i < |v.bids| ensures v.bids[i].amount < op.bid.amount {
          RatchetedPriceIsMaximum(v, i);
        }
      }
      assert w.bids[|w.bids| - 1] == op.bid;
    }
  }

  /** The price never decreases over any sequence of direct operations, and
      the ratchet holds throughout. */
  lemma {:induction false} DirectRunKeepsRatchet(v: AuctionView, ops: seq<AuctionOp>)
    requires Ratcheted(v)
    requires forall k :: 0 <= k < |ops| ==> Direct(ops[k])
    ensures Ratcheted(Run(v, ops))
    ensures v.currentPrice <= Run(v, ops).currentPrice
    decreases |ops|
  {
    if ops != [] {
      DirectStepKeepsRatchet(v, ops[0]);
      DirectRunKeepsRatchet(Step(v, ops[0]), ops[1..]);
    }
  }

  /** Once Ended, no sequence of operations changes the state again. */
  lemma {:induction false} EndedIsFinal(v: AuctionView, ops: seq<AuctionOp>)
    requires v.state == Ended
    ensures Run(v, ops).state == Ended
    decreases |ops|
  {
    if ops != [] {
      EndedIsFinal(Step(v, ops[0]), ops[1..]);
    }
  }

  /** The version counts exactly the operations that took effect among
      TryPlaceBid and UpdateWinningBid. */
  function PriceChanges(v: AuctionView, ops: seq<AuctionOp>): nat
    decreases |ops|
  {
    if ops == [] then 0
    else
      (if Allowed(v, ops[0]) && (ops[0].TryPlaceBidOp? || ops[0].UpdateWinningBidOp?) then 1 else 0)
      + PriceChanges(Step(v, ops[0]), ops[1..])
  }

  lemma {:induction false} VersionCountsPriceChanges(v: AuctionView, ops: seq<AuctionOp>)
    ensures Run(v, ops).version == v.version + PriceChanges(v, ops)
    decreases |ops|
  {
    if ops != [] {
      VersionCountsPriceChanges(Step(v, ops[0]), ops[1..]);
    }
  }

  /** An auction as the context tracks it. The prices and times are `const`
      because no modelled operation reassigns them; the source changes them
      only through `UpdatePricing` and `UpdateTimes`, which are not part of
      this model. */
  class Auction {
    const id: nat
    const vehicleId: nat
    const region: Region
    const startingPrice: int
    const reservePrice: Option<int>
    const startTime: int
    const endTime: int
    var state: AuctionState
    var currentPrice: int
    var winningBidderId: Option<nat>
    var version: int
    var bids: seq<Bid>

    function View(): AuctionView
      reads this
    {
      AuctionView(state, startingPrice, currentPrice, winningBidderId, version, bids)
    }

    /** A new auction is a Draft at its starting price, version 0, no winner,
        no bids. `id` stands for the generated Guid. */
    constructor (id: nat, vehicleId: nat, region: Region, startingPrice: int,
                 reservePrice: Option<int>, startTime: int, endTime: int)
      ensures this.id == id && this.vehicleId == vehicleId && this.region == region
      ensures this.startingPrice == startingPrice && this.reservePrice == reservePrice
      ensures this.startTime == startTime && this.endTime == endTime
      ensures state == Draft && currentPrice == startingPrice && winningBidderId == None
      ensures version == 0 && bids == []
      ensures View() == Initial(startingPrice)
    {
      this.id := id;
      this.vehicleId := vehicleId;
      this.region := region;
      this.startingPrice := startingPrice;
      this.reservePrice := reservePrice;
      this.startTime := startTime;
      this.endTime := endTime;
      state := Draft;
      currentPrice := startingPrice;
      winningBidderId := None;
      version := 0;
      bids := [];
    }

    method Start() returns (r: Outcome)
      modifies this
      ensures r == if old(state) == Draft then Pass else Fail(StartError)
      ensures r.Pass? ==> state == Active && currentPrice == startingPrice
      ensures r.Pass? ==> winningBidderId == old(winningBidderId) && version == old(version) && bids == old(bids)
      ensures r.Fail? ==> View() == old(View())
      ensures View() == Step(old(View()), StartOp)
    {
      if state != Draft {
        return Fail(StartError);
      }
      state := Active;
      currentPrice := startingPrice;
      r := Pass;
    }

    method Pause() returns (r: Outcome)
      modifies this
      ensures r == if old(state) == Active then Pass else Fail(PauseError)
      ensures View() == if r.Pass? then old(View()).(state := Paused) else old(View())
      ensures View() == Step(old(View()), PauseOp)
    {
      if state != Active {
        return Fail(PauseError);
      }
      state := Paused;
      r := Pass;
    }

    method Resume() returns (r: Outcome)
      modifies this
      ensures r == if old(state) == Paused then Pass else Fail(ResumeError)
      ensures View() == if r.Pass? then old(View()).(state := Active) else old(View())
      ensures View() == Step(old(View()), ResumeOp)
    {
      if state != Paused {
        return Fail(ResumeError);
      }
      state := Active;
      r := Pass;
    }

    method End() returns (r: Outcome)
      modifies this
      ensures r == if old(state) == Active || old(state) == Paused then Pass
                   else Fail(EndError)
      ensures View() == if r.Pass? then old(View()).(state := Ended) else old(View())
      ensures View() == Step(old(View()), EndOp)
    {
      if state != Active && state != Paused {
        return Fail(EndError);
      }
      state := Ended;
      r := Pass;
    }

    /** Allowed from every state but Ended, Cancelled included. */
    method Cancel() returns (r: Outcome)
      modifies this
      ensures r == if old(state) != Ended then Pass else Fail(CancelError)
      ensures View() == if r.Pass? then old(View()).(state := Cancelled) else old(View())
      ensures View() == Step(old(View()), CancelOp)
    {
      if state == Ended {
        return Fail(CancelError);
      }
      state := Cancelled;
      r := Pass;
    }

    /** The ratchet: succeeds only on an Active auction with an amount strictly
        above the current price; then the bid becomes the winning one. */
    method TryPlaceBid(bid: Bid) returns (placed: bool)
      modifies this
      ensures placed <==> old(state) == Active && bid.amount > old(currentPrice)
      ensures placed ==> currentPrice == bid.amount && old(currentPrice) < currentPrice
      ensures placed ==> winningBidderId == Some(bid.bidderId)
      ensures placed ==> bids == old(bids) + [bid] && version == old(version) + 1
      ensures placed ==> state == old(state)
      ensures !placed ==> View() == old(View())
      ensures View() == Step(old(View()), TryPlaceBidOp(bid))
    {
      if state != Active {
        return false;
      }
      if bid.amount <= currentPrice {
        return false;
      }
      currentPrice := bid.amount;
      winningBidderId := Some(bid.bidderId);
      bids := bids + [bid];
      version := version + 1;
      placed := true;
    }

    /** Sets price and winner with no state or monotonicity check. */
    method UpdateWinningBid(amount: int, bidderId: nat)
      modifies this
      ensures currentPrice == amount && winningBidderId == Some(bidderId)
      ensures version == old(version) + 1
      ensures state == old(state) && bids == old(bids)
      ensures View() == Step(old(View()), UpdateWinningBidOp(amount, bidderId))
    {
      currentPrice := amount;
      winningBidderId := Some(bidderId);
      version := version + 1;
    }

    /** Empties the bid list, nothing else. The repository calls it before
        reloading the bids; Auction.cs does not define it, so it is modelled as
        plain replacement of the list. */
    method ClearBids()
      modifies this
      ensures bids == []
      ensures state == old(state) && currentPrice == old(currentPrice)
      ensures winningBidderId == old(winningBidderId) && version == old(version)
    {
      bids := [];
    }

    /** Appends a bid without touching price, winner, state or version. */
    method AddBid(bid: Bid)
      modifies this
      ensures bids == old(bids) + [bid]
      ensures state == old(state) && currentPrice == old(currentPrice)
      ensures winningBidderId == old(winningBidderId) && version == old(version)
      ensures View() == Step(old(View()), AddBidOp(bid))
    {
      bids := bids + [bid];
    }
  }
}
