/**
 * The reservation table of the cost guard as a step system with a clock (`cost_guards.py`): what each operation
 * does to the table, and how much of the daily budget a table consumes. Money is a real number of dollars, time an
 * integer number of clock ticks. The three sums that a reservation reads are one atomic snapshot.
 */
module BudgetLedger {
  import opened Common

  const TICKS_PER_SECOND := 1_000_000
  /** `timedelta(hours=24)` */
  const WINDOW := 86_400 * TICKS_PER_SECOND

  datatype Status = Reserved | Committed | Released | Expired

  datatype Row = Row(
    id: Id,
    status: Status,
    reserved: real,
    actual: Option<real>,
    reservedAudio: Option<real>,
    actualAudio: Option<real>,
    createdAt: int,
    expiresAt: int,
    key: Option<string>
  )

  /** A telemetry record that carries a cost. */
  datatype Usage = Usage(at: int, cost: real)

  datatype State = State(rows: seq<Row>, usage: seq<Usage>, now: int)

  // ---- consumption ----

  predicate InWindow(at: int, now: int) {
    at >= now - WINDOW
  }

  /** `coalesce(actual_cost_usd, reserved_cost_usd)` */
  function Settled(r: Row): real {
    if r.actual.Some? then r.actual.value else r.reserved
  }

  function CommittedCharge(r: Row, now: int): real {
    if r.status == Committed && InWindow(r.createdAt, now) then Settled(r) else 0.0
  }

  function ReservedCharge(r: Row, now: int): real {
    if r.status == Reserved && r.expiresAt > now then r.reserved else 0.0
  }

  /** What one row holds of the budget. */
  function Charge(r: Row, now: int): real {
    CommittedCharge(r, now) + ReservedCharge(r, now)
  }

  function CommittedTotal(rows: seq<Row>, now: int): real {
    if rows == [] then 0.0 else CommittedTotal(rows[..|rows| - 1], now) + CommittedCharge(rows[|rows| - 1], now)
  }

  function ReservedTotal(rows: seq<Row>, now: int): real {
    if rows == [] then 0.0 else ReservedTotal(rows[..|rows| - 1], now) + ReservedCharge(rows[|rows| - 1], now)
  }

  function UsageTotal(usage: seq<Usage>, now: int): real {
    if usage == [] then 0.0
    else
      var u := usage[|usage| - 1];
      UsageTotal(usage[..|usage| - 1], now) + if InWindow(u.at, now) then u.cost else 0.0
  }

  function Max(a: real, b: real): real {
    if a >= b then a else b
  }

  /** `max(committed in 24h, telemetry in 24h) + unexpired reserved` */
  function Consumption(st: State): real {
    Max(CommittedTotal(st.rows, st.now), UsageTotal(st.usage, st.now)) + ReservedTotal(st.rows, st.now)
  }

  /** What the reservation table alone holds of the budget; the table is the budget authority. */
  function Exposure(st: State): real {
    CommittedTotal(st.rows, st.now) + ReservedTotal(st.rows, st.now)
  }

  // ---- the same sums, as the queries of the source word them ----

  /** `sum(f(x) for x in xs)` */
  ghost function SumOf<T>(xs: seq<T>, f: T -> real): real {
    if xs == [] then 0.0 else SumOf(xs[..|xs| - 1], f) + f(xs[|xs| - 1])
  }

  /** Committed rows created since a moment count with their actual cost, or the reserved cost if there is none. */
  ghost function CommittedSince(rows: seq<Row>, since: int): real {
    SumOf(rows, (r: Row) =>
      if r.status == Committed && r.createdAt >= since then
        match r.actual
        case Some(cost) => cost
        case None => r.reserved
      else 0.0)
  }

  ghost function RecordedSince(usage: seq<Usage>, since: int): real {
    SumOf(usage, (u: Usage) => if u.at >= since then u.cost else 0.0)
  }

  /** Reserved rows that have not expired count with their reserved cost. */
  ghost function HeldAt(rows: seq<Row>, now: int): real {
    SumOf(rows, (r: Row) => if r.status == Reserved && r.expiresAt > now then r.reserved else 0.0)
  }

  /** The budget that is used up: the larger of the two records of the last 24 hours, and every open hold. */
  ghost function Spent(st: State): real {
    var since := st.now - 24 * 3600 * 1_000_000;
    var committed, recorded := CommittedSince(st.rows, since), RecordedSince(st.usage, since);
    (if committed >= recorded then committed else recorded) + HeldAt(st.rows, st.now)
  }

  // ---- lookups ----

  ghost predicate UniqueIds(rows: seq<Row>) {
    forall i, j :: 0 <= i < j < |rows| ==> rows[i].id != rows[j].id
  }

  /** The unique index on the idempotency key; several rows may have none. */
  ghost predicate UniqueKeys(rows: seq<Row>) {
    forall i, j :: 0 <= i < j < |rows| && rows[i].key.Some? ==> rows[i].key != rows[j].key
  }

  function FindId(rows: seq<Row>, id: Id): (i: Option<nat>)
    ensures i.Some? ==> i.value < |rows| && rows[i.value].id == id
    ensures i.None? ==> forall k :: 0 <= k < |rows| ==> rows[k].id != id
  {
    if rows == [] then None
    else if rows[|rows| - 1].id == id then Some(|rows| - 1)
    else FindId(rows[..|rows| - 1], id)
  }

  function FindKey(rows: seq<Row>, key: string): (i: Option<nat>)
    ensures i.Some? ==> i.value < |rows| && rows[i.value].key == Some(key)
    ensures i.None? ==> forall k :: 0 <= k < |rows| ==> rows[k].key != Some(key)
  {
    if rows == [] then None
    else if rows[|rows| - 1].key == Some(key) then Some(|rows| - 1)
    else FindKey(rows[..|rows| - 1], key)
  }

  // ---- operations ----

  datatype Request = Request(id: Id, cost: real, audio: Option<real>, ttl: int, key: Option<string>)

  datatype ReserveResult =
    | Granted(row: Row)
    | Existing(row: Row)
    | OverBudget(consumed: real, requested: real)
    | UniqueViolation

  function NewRow(q: Request, now: int): Row {
    Row(q.id, Reserved, q.cost, None, q.audio, None, now, now + q.ttl, q.key)
  }

  predicate Live(r: Row) {
    r.status == Reserved || r.status == Committed
  }

  function Reserve(st: State, budget: real, q: Request): (State, ReserveResult) {
    var same := if q.key.Some? then FindKey(st.rows, q.key.value) else None;
    if same.Some? && Live(st.rows[same.value]) then
      (st, Existing(st.rows[same.value]))
    else if Consumption(st) + q.cost > budget then
      (st, OverBudget(Consumption(st), q.cost))
    else if same.Some? || FindId(st.rows, q.id).Some? then
      (st, UniqueViolation)
    else
      (st.(rows := st.rows + [NewRow(q, st.now)]), Granted(NewRow(q, st.now)))
  }

  /** The row after `commit_reservation`: no status and no expiry is looked at. */
  function CommittedRow(r: Row, actual: Option<real>, audio: Option<real>): Row {
    r.(status := Committed,
       actual := if actual.Some? then actual else Some(Settled(r)),
       actualAudio := if audio.Some? then audio else if r.actualAudio.Some? then r.actualAudio else r.reservedAudio)
  }

  function Commit(st: State, id: Id, actual: Option<real>, audio: Option<real>): State {
    match FindId(st.rows, id)
    case None => st
    case Some(i) => st.(rows := st.rows[i := CommittedRow(st.rows[i], actual, audio)])
  }

  function ReleasedRow(r: Row): Row {
    if r.status == Reserved then r.(status := Released) else r
  }

  function Release(st: State, id: Id): State {
    match FindId(st.rows, id)
    case None => st
    case Some(i) => st.(rows := st.rows[i := ReleasedRow(st.rows[i])])
  }

  predicate Stale(r: Row, now: int) {
    r.status == Reserved && r.expiresAt <= now
  }

  function SweptRow(r: Row, now: int): Row {
    if Stale(r, now) then r.(status := Expired) else r
  }

  function Sweep(rows: seq<Row>, now: int): seq<Row> {
    seq(|rows|, i requires 0 <= i < |rows| => SweptRow(rows[i], now))
  }

  function StaleCount(rows: seq<Row>, now: int): nat {
    if rows == [] then 0 else StaleCount(rows[..|rows| - 1], now) + if Stale(rows[|rows| - 1], now) then 1 else 0
  }

  datatype Step =
    | DoReserve(q: Request)
    | DoCommit(id: Id, actual: Option<real>, audio: Option<real>)
    | DoRelease(id: Id)
    | DoSweep
    | DoRecord(cost: real)
    | DoWait(ticks: nat)

  function Apply(st: State, budget: real, step: Step): State {
    match step
    case DoReserve(q) => Reserve(st, budget, q).0
    case DoCommit(id, actual, audio) => Commit(st, id, actual, audio)
    case DoRelease(id) => Release(st, id)
    case DoSweep => st.(rows := Sweep(st.rows, st.now))
    case DoRecord(cost) => st.(usage := st.usage + [Usage(st.now, cost)])
    case DoWait(ticks) => st.(now := st.now + ticks)
  }

  function Run(st: State, budget: real, steps: seq<Step>): State {
    if steps == [] then st
    else Apply(Run(st, budget, steps[..|steps| - 1]), budget, steps[|steps| - 1])
  }
}
