/** Account snapshots: what one query of an account found, and its status. */
module Snapshots {
  import opened Options
  import opened Text
  import P = Preferences

  /** `Other` covers the empty status and any text the monitor does not know. */
  datatype Status = Ok | Warning | Critical | Error | Unknown | Disabled | Other(text: string)

  const UNSET := Other("")

  datatype Kind = BalanceKind | PeriodQuota | Quota | Unsupported | OtherKind(text: string)

  datatype Balance = MoneyBalance(amount: string, currency: string, balanceType: string)

  datatype Window = QuotaWindow(
    name: string, remaining: Option<real>, used: Option<real>,
    remainingAmount: string, totalAmount: string, usedAmount: string, excessAmount: string, unit: string)

  datatype Quantity = QuotaQuantity(name: string, unlimited: bool, remaining: string, total: string, used: string)

  datatype Section = SectionStatus(status: string, errorCode: string, message: string)

  datatype Failure = SnapshotError(code: string, message: string)

  /** Times are instants, with 0 for Go's zero time. `base` is never written to disk. */
  datatype Snapshot = AccountSnapshot(
    accountId: string, name: string, adapter: string, kind: Kind, status: Status,
    balances: seq<Balance>, windows: seq<Window>, quantities: seq<Quantity>,
    checkedAt: int, lastAttemptAt: int, lastSuccessAt: Option<int>,
    configRevision: int, stale: bool, error: Option<Failure>, sections: map<string, Section>,
    base: Status)

  /** Parses a printed number; None when it is not one. */
  type Reader = string -> Option<real>

  function Rank(s: Status): int {
    match s
    case Error => 6
    case Critical => 5
    case Warning => 4
    case Unknown => 3
    case Disabled => 2
    case Ok => 1
    case Other(_) => 0
  }

  function Max(current: Status, candidate: Status): (r: Status)
    ensures Rank(r) >= Rank(current) && Rank(r) >= Rank(candidate) && (r == current || r == candidate)
  {
    if Rank(candidate) > Rank(current) then candidate else current
  }

  /** The statuses no threshold can change. */
  predicate Settled(s: Status) { s == Error || s == Unknown || s == Disabled }

  function InferKind(s: Snapshot): Kind {
    if s.balances != [] then BalanceKind
    else if s.windows != [] then PeriodQuota
    else if s.quantities != [] then Quota
    else Unsupported
  }

  function MarkStale(s: Snapshot, now: int): Snapshot {
    s.(stale := true,
       error := if s.error.None? then Some(SnapshotError("STALE", "using the last successful snapshot")) else s.error,
       checkedAt := if s.checkedAt == P.ZERO_TIME then now else s.checkedAt)
  }

  /** What a failed query stores: the previous snapshot marked stale, or a bare failure when
      there is none. */
  function ErrorSnapshot(previous: Option<Snapshot>, id: string, name: string, adapter: string, failure: Failure,
      now: int): Snapshot {
    match previous
    case Some(s) => MarkStale(s, now).(lastAttemptAt := now, status := Error, error := Some(failure))
    case None =>
      AccountSnapshot(id, name, FirstNonEmpty([adapter, "unknown"]), Unsupported, Error, [], [], [], now, now, None, 0,
          false,
                      Some(failure), map[], UNSET)
  }
}
