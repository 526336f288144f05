/** Vocabulary shared by every component of the auction core. */
module Common {

  /** The logical locations a bid can come from and an auction can live in.
      Only these two values are used by the core. The enum's own file is not
      part of this model, so its declaration order, `USEast` then `EUWest`,
      is ASSUMED. Two things depend on it: the per-region walk of a
      reconciliation follows `AllRegions`, and the enum's default value is
      its first member (`FallbackRegion` in the coordinator). */
  datatype Region = USEast | EUWest

  const AllRegions: seq<Region> := [USEast, EUWest]

  /** Lifecycle of an auction: Draft -> Active <-> Paused -> Ended, plus Cancelled. */
  datatype AuctionState = Draft | Active | Paused | Ended | Cancelled

  /** Lifecycle of a partition incident. */
  datatype PartitionStatus = Healthy | Partitioned | Reconciling | Resolved

  /** A nullable value (`T?` / `Nullable<T>` in the source). */
  datatype Option<+T> = None | Some(value: T)

  /** The result of an operation that either completes or throws with a message. */
  datatype Outcome = Pass | Fail(message: string)

  /** The result of an operation that either returns a value or throws with a message. */
  datatype Result<+T> = Success(value: T) | Failure(message: string)

  /** The enum member names, as string interpolation prints them. */
  function RegionName(r: Region): string {
    match r
    case USEast => "USEast"
    case EUWest => "EUWest"
  }

  function StateName(s: AuctionState): string {
    match s
    case Draft => "Draft"
    case Active => "Active"
    case Paused => "Paused"
    case Ended => "Ended"
    case Cancelled => "Cancelled"
  }

  /** Decimal rendering of a whole number, as string interpolation prints it. */
  function NatToString(n: nat): string
    decreases n
  {
    if n < 10 then ["0123456789"[n]]
    else NatToString(n / 10) + ["0123456789"[n % 10]]
  }

  function IntToString(i: int): string {
    if i < 0 then "-" + NatToString(-i) else NatToString(i)
  }

  /** The position of a region in `AllRegions`. */
  function RegionIndex(r: Region): (i: nat)
    ensures i < |AllRegions| && AllRegions[i] == r
  {
    match r
    case USEast => 0
    case EUWest => 1
  }

  lemma AllRegionsIsComplete(r: Region)
    ensures r in AllRegions
  {
  }
}
