/** `CostGuardService` as an object over the reservation table, and what holds over all its runs. */
module CostGuards {
  import opened Common
  import opened BudgetLedger

  /** The service: the table and the telemetry it reads, with the database clock. */
  class CostGuardService {
    const budget: real
    const ttl: int
    var rows: seq<Row>
    var usage: seq<Usage>
    var now: int

    function Snapshot(): State reads this {
      State(rows, usage, now)
    }

    constructor (budget: real, ttl: int, now: int)
      ensures this.budget == budget && this.ttl == ttl && Snapshot() == State([], [], now)
    {
      this.budget, this.ttl := budget, ttl;
      rows, usage, this.now := [], [], now;
    }

    /** `check_budget_available` is the budget rule, and agrees with what `reserve_budget` would decide. */
    method CheckBudgetAvailable(additional: real) returns (ok: bool)
      ensures ok <==> Spent(Snapshot()) + additional <= budget
      ensures ok <==> forall q: Request :: q.cost == additional && q.key == None && FindId(rows, q.id).None?
                        ==> Reserve(Snapshot(), budget, q).1.Granted?
    {
      ok := Consumption(Snapshot()) + additional <= budget;
      ConsumptionIsSpent(Snapshot());
      ghost var unused := FreshId(rows);
      ghost var q := Request(unused, additional, None, ttl, None);
      assert Reserve(Snapshot(), budget, q).1.Granted? <==> ok;
    }

    /** `reserve_budget`; `None` for the time to live means the service's default. */
    method ReserveBudget(id: Id, cost: real, audio: Option<real>, ttl: Option<int>, key: Option<string>)
      returns (r: ReserveResult)
      modifies this`rows
      ensures var q := Request(id, cost, audio, if ttl.Some? then ttl.value else this.ttl, key);
        && (Snapshot(), r) == Reserve(old(Snapshot()), budget, q)
        && (UniqueKeys(old(rows)) ==> Decided(old(Snapshot()), budget, q, r, rows))
    {
      ghost var q := Request(id, cost, audio, if ttl.Some? then ttl.value else this.ttl, key);
      if UniqueKeys(rows) {
        ReserveDecides(Snapshot(), budget, q);
      }
      var effective := if ttl.Some? then ttl.value else this.ttl;
      var same := None;
      if key.Some? {
        same := FindKey(rows, key.value);
        if same.Some? && (rows[same.value].status == Reserved || rows[same.value].status == Committed) {
          return Existing(rows[same.value]);
        }
      }
      var committed := CommittedTotal(rows, now);
      var telemetry := UsageTotal(usage, now);
      var committedCost := if committed >= telemetry then committed else telemetry;
      var consumed := committedCost + ReservedTotal(rows, now);
      if consumed + cost > budget {
        return OverBudget(consumed, cost);
      }
      if same.Some? || FindId(rows, id).Some? {
        return UniqueViolation;
      }
      var row := Row(id, Reserved, cost, None, audio, None, now, now + effective, key);
      rows := rows + [row];
      return Granted(row);
    }

    /** `commit_reservation` */
    method CommitReservation(id: Id, actual: Option<real>, audio: Option<real>)
      modifies this`rows
      ensures Snapshot() == Commit(old(Snapshot()), id, actual, audio)
      ensures |rows| == |old(rows)|
      ensures forall i :: 0 <= i < |rows| && rows[i].id != id ==> rows[i] == old(rows[i])
      ensures UniqueIds(old(rows)) ==> forall i :: 0 <= i < |rows| && old(rows[i].id) == id ==>
                rows[i] == old(rows[i]).(
                  status := Committed,
                  actual := Some(if actual.Some? then actual.value
                                 else if old(rows[i].actual).Some? then old(rows[i].actual).value
                                 else old(rows[i].reserved)),
                  actualAudio := if audio.Some? then audio
                                 else if old(rows[i].actualAudio).Some? then old(rows[i].actualAudio)
                                 else old(rows[i].reservedAudio))
    {
      var at := FindId(rows, id);
      if at.Some? {
        var row := rows[at.value];
        row := row.(status := Committed);
        if actual.Some? {
          row := row.(actual := actual);
        } else if row.actual.None? {
          row := row.(actual := Some(row.reserved));
        }
        if audio.Some? {
          row := row.(actualAudio := audio);
        } else if row.actualAudio.None? && row.reservedAudio.Some? {
          row := row.(actualAudio := row.reservedAudio);
        }
        rows := rows[at.value := row];
      }
    }

    /** `release_reservation` */
    method ReleaseReservation(id: Id)
      modifies this`rows
      ensures Snapshot() == Release(old(Snapshot()), id)
      ensures |rows| == |old(rows)|
      ensures forall i :: 0 <= i < |rows| && rows[i].id != id ==> rows[i] == old(rows[i])
      ensures UniqueIds(old(rows)) ==> forall i :: 0 <= i < |rows| && old(rows[i].id) == id ==>
                rows[i] == if old(rows[i].status) == Reserved then old(rows[i]).(status := Released) else old(rows[i])
    {
      var at := FindId(rows, id);
      if at.Some? && rows[at.value].status == Reserved {
        rows := rows[at.value := rows[at.value].(status := Released)];
      }
    }

    /** `expire_stale_reservations`; consumption does not change. */
    method ExpireStaleReservations() returns (count: nat)
      modifies this`rows
      ensures rows == Sweep(old(rows), now) && count == StaleCount(old(rows), now)
      ensures |rows| == |old(rows)|
      ensures forall i :: 0 <= i < |rows| ==>
                rows[i] == if old(rows[i].status) == Reserved && old(rows[i].expiresAt) <= now
                           then old(rows[i]).(status := Expired) else old(rows[i])
      ensures count == |set i | 0 <= i < |rows| && rows[i] != old(rows[i])|
      ensures Consumption(Snapshot()) == Consumption(old(Snapshot()))
      ensures Exposure(Snapshot()) == Exposure(old(Snapshot()))
    {
      ghost var before := rows;
      count := 0;
      for i := 0 to |rows|
        invariant |rows| == |before| && count == StaleCount(before[..i], now)
        invariant forall j :: 0 <= j < i ==> rows[j] == SweptRow(before[j], now)
        invariant forall j :: i <= j < |rows| ==> rows[j] == before[j]
      {
        assert before[..i + 1][..i] == before[..i] && before[..i + 1][i] == before[i];
        if rows[i].status == Reserved && rows[i].expiresAt <= now {
          rows := rows[i := rows[i].(status := Expired)];
          count := count + 1;
        }
      }
      assert before[..|before|] == before;
      assert rows == Sweep(before, now);
      SweepKeepsTotals(before, now);
      ExpiredAreCounted(before, rows, now);
    }
  }

  // ---- the budget rule ----

  lemma {:induction false} RowTotalsAreSums(rows: seq<Row>, now: int)
    ensures CommittedTotal(rows, now) == CommittedSince(rows, now - 24 * 3600 * 1_000_000)
    ensures ReservedTotal(rows, now) == HeldAt(rows, now)
  {
    if rows != [] {
      RowTotalsAreSums(rows[..|rows| - 1], now);
    }
  }

  lemma {:induction false} UsageTotalIsSum(usage: seq<Usage>, now: int)
    ensures UsageTotal(usage, now) == RecordedSince(usage, now - 24 * 3600 * 1_000_000)
  {
    if usage != [] {
      UsageTotalIsSum(usage[..|usage| - 1], now);
    }
  }

  /** The consumption the service computes is what the three queries of the source add up to. */
  lemma ConsumptionIsSpent(st: State)
    ensures Consumption(st) == Spent(st)
  {
    RowTotalsAreSums(st.rows, st.now);
    UsageTotalIsSum(st.usage, st.now);
  }

  /** A row with the key of the request that is still in force. */
  ghost predicate InForce(st: State, q: Request, r: Row) {
    r in st.rows && q.key.Some? && r.key == q.key && (r.status == Reserved || r.status == Committed)
  }

  /** A row that the database does not let stand beside a new row of the request. */
  ghost predicate Clashes(st: State, q: Request, r: Row) {
    r in st.rows && (r.id == q.id || (q.key.Some? && r.key == q.key))
  }

  /**
   * The whole decision of `reserve_budget`: a row in force is returned; otherwise the budget decides, and both refusals
   * name the two amounts; otherwise the request gets its row unless the table already has its id or its key.
   */
  ghost predicate Decided(st: State, budget: real, q: Request, r: ReserveResult, rows: seq<Row>) {
    var repeated := exists row :: InForce(st, q, row);
    var fits := Spent(st) + q.cost <= budget;
    var taken := exists row :: Clashes(st, q, row);
    && (r.Existing? <==> repeated)
    && (r.OverBudget? <==> !repeated && !fits)
    && (r.UniqueViolation? <==> !repeated && fits && taken)
    && (r.Granted? <==> !repeated && fits && !taken)
    && (r.Existing? ==> InForce(st, q, r.row))
    && (r.OverBudget? ==> r.consumed == Spent(st) && r.requested == q.cost)
    && (r.Granted? ==>
      && r.row == Row(q.id, Reserved, q.cost, None, q.audio, None, st.now, st.now + q.ttl, q.key)
      && rows == st.rows + [r.row])
    && (!r.Granted? ==> rows == st.rows)
  }

  /** For every table with unique keys, every budget and every request. */
  lemma ReserveDecides(st: State, budget: real, q: Request)
    requires UniqueKeys(st.rows)
    ensures var (after, r) := Reserve(st, budget, q);
      Decided(st, budget, q, r, after.rows) && after == st.(rows := after.rows)
  {
    ConsumptionIsSpent(st);
    var same := if q.key.Some? then FindKey(st.rows, q.key.value) else None;
    RowsInForce(st, q, same);
    RowsThatClash(st, q, same);
  }

  /** Whether a row in force exists is decided by the row that the lookup finds. */
  lemma RowsInForce(st: State, q: Request, same: Option<nat>)
    requires UniqueKeys(st.rows) && same == if q.key.Some? then FindKey(st.rows, q.key.value) else None
    ensures (exists row :: InForce(st, q, row)) <==> same.Some? && InForce(st, q, st.rows[same.value])
  {
    forall row | InForce(st, q, row) ensures same.Some? && row == st.rows[same.value] {
      var j :| 0 <= j < |st.rows| && st.rows[j] == row;
      assert st.rows[j].key == Some(q.key.value);
      assert st.rows[same.value].key == st.rows[j].key;
    }
  }

  lemma RowsThatClash(st: State, q: Request, same: Option<nat>)
    requires same == if q.key.Some? then FindKey(st.rows, q.key.value) else None
    ensures (exists row :: Clashes(st, q, row)) <==> same.Some? || FindId(st.rows, q.id).Some?
  {
    if same.Some? {
      assert Clashes(st, q, st.rows[same.value]);
    }
    if FindId(st.rows, q.id).Some? {
      assert Clashes(st, q, st.rows[FindId(st.rows, q.id).value]);
    }
    if row :| Clashes(st, q, row) {
      var j :| 0 <= j < |st.rows| && st.rows[j] == row;
      assert st.rows[j].id != q.id || FindId(st.rows, q.id).Some?;
    }
  }

  /**
   * The budget rule for a new request, whose id and key no row has: it is granted exactly if what is used up and its
   * own cost together are within the budget.
   */
  lemma GrantedExactlyIfItFits(st: State, budget: real, q: Request)
    requires forall r :: r in st.rows ==> r.id != q.id && (q.key.Some? ==> r.key != q.key)
    ensures var row := Row(q.id, Reserved, q.cost, None, q.audio, None, st.now, st.now + q.ttl, q.key);
      Reserve(st, budget, q) ==
        if Spent(st) + q.cost <= budget then (State(st.rows + [row], st.usage, st.now), Granted(row))
        else (st, OverBudget(Spent(st), q.cost))
  {
    ConsumptionIsSpent(st);
  }

  /** The positions of the holds that a sweep expires. */
  ghost function StaleRows(rows: seq<Row>, now: int): set<int> {
    set i | 0 <= i < |rows| && rows[i].status == Reserved && rows[i].expiresAt <= now
  }

  lemma {:induction false} StaleCountIsSize(rows: seq<Row>, now: int)
    ensures StaleCount(rows, now) == |StaleRows(rows, now)|
  {
    if rows != [] {
      var n := |rows| - 1;
      StaleCountIsSize(rows[..n], now);
      assert StaleRows(rows, now) == StaleRows(rows[..n], now) + if Stale(rows[n], now) then {n} else {};
    }
  }

  lemma ExpiredAreCounted(before: seq<Row>, after: seq<Row>, now: int)
    requires after == Sweep(before, now)
    ensures StaleCount(before, now) == |set i | 0 <= i < |after| && after[i] != before[i]|
  {
    StaleCountIsSize(before, now);
    assert (set i | 0 <= i < |after| && after[i] != before[i]) == StaleRows(before, now);
  }

  /** An id that no row has. */
  ghost function FreshId(rows: seq<Row>): (id: Id)
    ensures FindId(rows, id).None?
  {
    LongerThanAll(rows);
    var id :| FindId(rows, id).None?;
    id
  }

  lemma LongerThanAll(rows: seq<Row>)
    ensures exists id :: FindId(rows, id).None?
  {
    var n := LongestId(rows);
    var id: Id := seq(n + 1, _ => 'x');
    assert FindId(rows, id).None?;
  }

  ghost function LongestId(rows: seq<Row>): (n: nat)
    ensures forall i :: 0 <= i < |rows| ==> |rows[i].id| <= n
  {
    if rows == [] then 0
    else
      var n := LongestId(rows[..|rows| - 1]);
      if |rows[|rows| - 1].id| > n then |rows[|rows| - 1].id| else n
  }

  lemma {:induction false} SweepKeepsTotals(rows: seq<Row>, now: int)
    ensures CommittedTotal(Sweep(rows, now), now) == CommittedTotal(rows, now)
    ensures ReservedTotal(Sweep(rows, now), now) == ReservedTotal(rows, now)
  {
    if rows != [] {
      var front := rows[..|rows| - 1];
      assert Sweep(rows, now)[..|rows| - 1] == Sweep(front, now);
      SweepKeepsTotals(front, now);
    }
  }

  // ---- one row changes ----

  /** Replacing one row moves the totals by the difference of its charges and by nothing else. */
  lemma {:induction false} ReplaceRow(rows: seq<Row>, i: nat, r: Row, now: int)
    requires i < |rows|
    ensures CommittedTotal(rows[i := r], now) ==
            CommittedTotal(rows, now) - CommittedCharge(rows[i], now) + CommittedCharge(r, now)
    ensures ReservedTotal(rows[i := r], now) ==
            ReservedTotal(rows, now) - ReservedCharge(rows[i], now) + ReservedCharge(r, now)
  {
    var n := |rows| - 1;
    if i == n {
      assert rows[i := r][..n] == rows[..n];
    } else {
      assert rows[i := r][..n] == rows[..n][i := r];
      ReplaceRow(rows[..n], i, r, now);
    }
  }

  /**
   * Exactly what a commit costs: the exposure rises precisely when the committed amount, if the row was created in
   * the window, is more than the row already held. An expired or released row holds nothing, so the missing guard
   * in `commit_reservation` lets such a commit take budget that was never set aside.
   */
  lemma CommitEffect(st: State, i: nat, actual: Option<real>, audio: Option<real>)
    requires i < |st.rows| && FindId(st.rows, st.rows[i].id) == Some(i)
    ensures var r := st.rows[i];
      var paid := if actual.Some? then actual.value else Settled(r);
      var held := Charge(r, st.now);
      var after := Commit(st, r.id, actual, audio);
      && (Exposure(after) <= Exposure(st) <==> (if InWindow(r.createdAt, st.now) then paid else 0.0) <= held)
      && Exposure(after) - Exposure(st) == (if InWindow(r.createdAt, st.now) then paid else 0.0) - held
  {
    ReplaceRow(st.rows, i, CommittedRow(st.rows[i], actual, audio), st.now);
  }

  /**
   * When the table is within the budget after a commit: exactly when what it held before, less the row's own charge,
   * leaves room for the amount that is paid. The guard that the source lacks only asks about the row's own charge.
   */
  lemma CommitWithinBudget(st: State, budget: real, i: nat, actual: Option<real>, audio: Option<real>)
    requires i < |st.rows| && FindId(st.rows, st.rows[i].id) == Some(i)
    ensures var r := st.rows[i];
      var paid := if actual.Some? then actual.value else Settled(r);
      Exposure(Commit(st, r.id, actual, audio)) <= budget <==>
      Exposure(st) - Charge(r, st.now) + (if InWindow(r.createdAt, st.now) then paid else 0.0) <= budget
  {
    CommitEffect(st, i, actual, audio);
  }

  /** Releasing an active hold frees exactly its amount at once; anything else changes nothing. */
  lemma ReleaseFrees(st: State, i: nat)
    requires i < |st.rows| && FindId(st.rows, st.rows[i].id) == Some(i)
    ensures Consumption(Release(st, st.rows[i].id)) + ReservedCharge(st.rows[i], st.now) == Consumption(st)
  {
    ReplaceRow(st.rows, i, ReleasedRow(st.rows[i]), st.now);
  }

  // ---- invariants over runs ----

  /** What every reachable table satisfies, and the budget rule itself. */
  ghost predicate Inv(st: State, budget: real) {
    && UniqueIds(st.rows)
    && UniqueKeys(st.rows)
    && (forall i :: 0 <= i < |st.rows| ==> NonNegative(st.rows[i]))
    && (forall i :: 0 <= i < |st.usage| ==> st.usage[i].cost >= 0.0)
    && Exposure(st) <= budget
  }

  ghost predicate NonNegative(r: Row) {
    r.reserved >= 0.0 && (r.actual.Some? ==> r.actual.value >= 0.0)
  }

  /** The steps the guard is meant for: costs are not negative, and a commit settles an unexpired hold within it. */
  ghost predicate Proper(st: State, step: Step) {
    match step
    case DoReserve(q) => q.cost >= 0.0
    case DoCommit(id, actual, _) =>
      var at := FindId(st.rows, id);
      at.Some? ==> SettlesHold(st.rows[at.value], actual, st.now)
    case DoRecord(cost) => cost >= 0.0
    case _ => true
  }

  /** The guard that `commit_reservation` does not have. */
  predicate SettlesHold(r: Row, actual: Option<real>, now: int) {
    && r.status == Reserved
    && r.expiresAt > now
    && r.actual.None?
    && (actual.Some? ==> 0.0 <= actual.value <= r.reserved)
  }

  lemma {:induction false} TotalsFallWithTime(rows: seq<Row>, now: int, later: int)
    requires now <= later && forall i :: 0 <= i < |rows| ==> NonNegative(rows[i])
    ensures CommittedTotal(rows, later) <= CommittedTotal(rows, now)
    ensures ReservedTotal(rows, later) <= ReservedTotal(rows, now)
  {
    if rows != [] {
      TotalsFallWithTime(rows[..|rows| - 1], now, later);
    }
  }

  lemma {:induction false} UsageFallsWithTime(usage: seq<Usage>, now: int, later: int)
    requires now <= later && forall i :: 0 <= i < |usage| ==> usage[i].cost >= 0.0
    ensures UsageTotal(usage, later) <= UsageTotal(usage, now)
  {
    if usage != [] {
      UsageFallsWithTime(usage[..|usage| - 1], now, later);
    }
  }

  lemma ReserveKeepsInv(st: State, budget: real, q: Request)
    requires Inv(st, budget) && q.cost >= 0.0
    ensures Inv(Reserve(st, budget, q).0, budget)
  {
    var after := Reserve(st, budget, q).0;
    if after != st {
      assert after.rows[..|after.rows| - 1] == st.rows;
      assert forall k :: 0 <= k < |st.rows| ==> st.rows[k].id != q.id;
      assert q.key.Some? ==> forall k :: 0 <= k < |st.rows| ==> st.rows[k].key != q.key;
    }
  }

  lemma CommitKeepsInv(st: State, budget: real, id: Id, actual: Option<real>, audio: Option<real>)
    requires Inv(st, budget) && Proper(st, DoCommit(id, actual, audio))
    ensures Inv(Commit(st, id, actual, audio), budget)
  {
    var at := FindId(st.rows, id);
    if at.Some? {
      CommitEffect(st, at.value, actual, audio);
    }
  }

  lemma ReleaseKeepsInv(st: State, budget: real, id: Id)
    requires Inv(st, budget)
    ensures Inv(Release(st, id), budget)
  {
    var at := FindId(st.rows, id);
    if at.Some? {
      ReplaceRow(st.rows, at.value, ReleasedRow(st.rows[at.value]), st.now);
    }
  }

  lemma StepKeepsInv(st: State, budget: real, step: Step)
    requires Inv(st, budget) && Proper(st, step)
    ensures Inv(Apply(st, budget, step), budget)
  {
    match step
    case DoReserve(q) => ReserveKeepsInv(st, budget, q);
    case DoCommit(id, actual, audio) => CommitKeepsInv(st, budget, id, actual, audio);
    case DoRelease(id) => ReleaseKeepsInv(st, budget, id);
    case DoSweep => SweepKeepsTotals(st.rows, st.now);
    case DoRecord(_) =>
    case DoWait(ticks) => TotalsFallWithTime(st.rows, st.now, st.now + ticks);
  }

  ghost predicate ProperRun(st: State, budget: real, steps: seq<Step>) {
    forall i :: 0 <= i < |steps| ==> Proper(Run(st, budget, steps[..i]), steps[i])
  }

  /**
   * Safety over whole runs: whatever the telemetry does, the reservation table never holds more than the daily
   * budget, ids and idempotency keys stay unique, and no cost turns negative.
   */
  lemma {:induction false} BudgetHolds(st: State, budget: real, steps: seq<Step>)
    requires Inv(st, budget) && ProperRun(st, budget, steps)
    ensures Inv(Run(st, budget, steps), budget)
  {
    if steps != [] {
      var front := steps[..|steps| - 1];
      forall i | 0 <= i < |front| ensures Proper(Run(st, budget, front[..i]), front[i]) {
        assert front[..i] == steps[..i];
      }
      BudgetHolds(st, budget, front);
      assert steps[..|steps| - 1] == front;
      StepKeepsInv(Run(st, budget, front), budget, steps[|steps| - 1]);
    }
  }

  /**
   * When the reported consumption itself is within the budget, after any proper run: exactly when the telemetry of
   * the window plus the open holds is. Telemetry within the committed cost is enough.
   */
  lemma ConsumptionWithinBudget(st: State, budget: real, steps: seq<Step>)
    requires Inv(st, budget) && ProperRun(st, budget, steps)
    ensures var end := Run(st, budget, steps);
      var telemetry, open := UsageTotal(end.usage, end.now), ReservedTotal(end.rows, end.now);
      && (Consumption(end) <= budget <==> telemetry + open <= budget)
      && (telemetry <= CommittedTotal(end.rows, end.now) ==> Consumption(end) <= budget)
  {
    BudgetHolds(st, budget, steps);
  }

  /** The guard that recording usage does not have: the telemetry fits beside the open holds. */
  predicate RecordFits(st: State, budget: real, step: Step) {
    step.DoRecord? ==> UsageTotal(st.usage, st.now) + step.cost + ReservedTotal(st.rows, st.now) <= budget
  }

  /** Among the proper steps only a recording that does not fit takes the reported consumption over the budget. */
  lemma StepKeepsConsumption(st: State, budget: real, step: Step)
    requires Inv(st, budget) && Proper(st, step) && Consumption(st) <= budget
    ensures Consumption(Apply(st, budget, step)) <= budget <==> RecordFits(st, budget, step)
  {
    match step
    case DoReserve(q) => ReserveKeepsConsumption(st, budget, q);
    case DoCommit(id, actual, audio) => CommitKeepsConsumption(st, budget, id, actual, audio);
    case DoRelease(id) =>
      if FindId(st.rows, id).Some? {
        var i := FindId(st.rows, id).value;
        ReplaceRow(st.rows, i, ReleasedRow(st.rows[i]), st.now);
      }
    case DoSweep => SweepKeepsTotals(st.rows, st.now);
    case DoRecord(cost) => RecordAddsUsage(st, cost);
    case DoWait(ticks) =>
      TotalsFallWithTime(st.rows, st.now, st.now + ticks);
      UsageFallsWithTime(st.usage, st.now, st.now + ticks);
  }

  lemma ReserveKeepsConsumption(st: State, budget: real, q: Request)
    requires q.cost >= 0.0 && Consumption(st) <= budget
    ensures Consumption(Reserve(st, budget, q).0) <= budget
  {
    var after := Reserve(st, budget, q).0;
    if after != st {
      assert after.rows[..|after.rows| - 1] == st.rows;
    }
  }

  lemma CommitKeepsConsumption(st: State, budget: real, id: Id, actual: Option<real>, audio: Option<real>)
    requires Inv(st, budget) && Proper(st, DoCommit(id, actual, audio)) && Consumption(st) <= budget
    ensures Consumption(Commit(st, id, actual, audio)) <= budget
  {
    if FindId(st.rows, id).Some? {
      var i := FindId(st.rows, id).value;
      assert NonNegative(st.rows[i]);
      ReplaceRow(st.rows, i, CommittedRow(st.rows[i], actual, audio), st.now);
    }
  }

  lemma RecordAddsUsage(st: State, cost: real)
    ensures UsageTotal(st.usage + [Usage(st.now, cost)], st.now) == UsageTotal(st.usage, st.now) + cost
  {
    var usage := st.usage + [Usage(st.now, cost)];
    assert usage[..|usage| - 1] == st.usage;
  }

  lemma RunSnoc(st: State, budget: real, steps: seq<Step>, i: nat)
    requires i < |steps|
    ensures Run(st, budget, steps[..i + 1]) == Apply(Run(st, budget, steps[..i]), budget, steps[i])
  {
    assert steps[..i + 1][..i] == steps[..i] && steps[..i + 1][i] == steps[i];
  }

  lemma ProperPrefix(st: State, budget: real, steps: seq<Step>, i: nat)
    requires ProperRun(st, budget, steps) && i <= |steps|
    ensures ProperRun(st, budget, steps[..i])
  {
    forall j | 0 <= j < i ensures Proper(Run(st, budget, steps[..i][..j]), steps[..i][j]) {
      assert steps[..i][..j] == steps[..j];
    }
  }

  ghost predicate WithinBudgetAfter(st: State, budget: real, steps: seq<Step>, i: nat)
    requires i <= |steps|
  {
    Consumption(Run(st, budget, steps[..i])) <= budget
  }

  ghost predicate FitsAt(st: State, budget: real, steps: seq<Step>, i: nat)
    requires i < |steps|
  {
    RecordFits(Run(st, budget, steps[..i]), budget, steps[i])
  }

  lemma WithinStep(st: State, budget: real, steps: seq<Step>, i: nat)
    requires Inv(st, budget) && ProperRun(st, budget, steps) && i < |steps|
    requires WithinBudgetAfter(st, budget, steps, i)
    ensures WithinBudgetAfter(st, budget, steps, i + 1) <==> FitsAt(st, budget, steps, i)
  {
    ProperPrefix(st, budget, steps, i);
    BudgetHolds(st, budget, steps[..i]);
    RunSnoc(st, budget, steps, i);
    StepKeepsConsumption(Run(st, budget, steps[..i]), budget, steps[i]);
  }

  /**
   * Over every proper run that starts within the budget, the reported consumption never exceeds it if and only if
   * every usage record fits beside the open holds at the moment it is made.
   */
  lemma ConsumptionStaysExactly(st: State, budget: real, steps: seq<Step>)
    requires Inv(st, budget) && ProperRun(st, budget, steps) && Consumption(st) <= budget
    ensures (forall i :: 0 <= i <= |steps| ==> WithinBudgetAfter(st, budget, steps, i)) <==>
            (forall i :: 0 <= i < |steps| ==> FitsAt(st, budget, steps, i))
  {
    if forall i :: 0 <= i <= |steps| ==> WithinBudgetAfter(st, budget, steps, i) {
      forall i | 0 <= i < |steps| ensures FitsAt(st, budget, steps, i) {
        WithinStep(st, budget, steps, i);
      }
    }
    if forall i :: 0 <= i < |steps| ==> FitsAt(st, budget, steps, i) {
      forall i | 0 <= i <= |steps| ensures WithinBudgetAfter(st, budget, steps, i) {
        FittingPrefix(st, budget, steps, i);
      }
    }
  }

  lemma {:induction false} FittingPrefix(st: State, budget: real, steps: seq<Step>, i: nat)
    requires Inv(st, budget) && ProperRun(st, budget, steps) && Consumption(st) <= budget && i <= |steps|
    requires forall j :: 0 <= j < |steps| ==> FitsAt(st, budget, steps, j)
    ensures WithinBudgetAfter(st, budget, steps, i)
  {
    if i == 0 {
      assert steps[..0] == [];
    } else {
      FittingPrefix(st, budget, steps, i - 1);
      WithinStep(st, budget, steps, i - 1);
    }
  }

  /** Waiting and sweeping never raise the reported consumption. */
  lemma TimeNeverRaisesConsumption(st: State, budget: real, ticks: nat)
    requires Inv(st, budget)
    ensures Consumption(Apply(st, budget, DoWait(ticks))) <= Consumption(st)
    ensures Consumption(Apply(st, budget, DoSweep)) == Consumption(st)
  {
    TotalsFallWithTime(st.rows, st.now, st.now + ticks);
    UsageFallsWithTime(st.usage, st.now, st.now + ticks);
    SweepKeepsTotals(st.rows, st.now);
  }

  // ---- identity of rows ----

  /** The parts of a row that no operation changes; a settled row stays settled. */
  ghost predicate SameRow(a: Row, b: Row) {
    && b.id == a.id && b.reserved == a.reserved && b.reservedAudio == a.reservedAudio
    && b.createdAt == a.createdAt && b.expiresAt == a.expiresAt && b.key == a.key
    && (a.status == Committed ==> b.status == Committed)
    && (a.status == Released || a.status == Expired ==> b.status == a.status || b.status == Committed)
  }

  lemma StepKeepsRows(st: State, budget: real, step: Step)
    ensures |Apply(st, budget, step).rows| >= |st.rows|
    ensures forall i :: 0 <= i < |st.rows| ==> SameRow(st.rows[i], Apply(st, budget, step).rows[i])
  {
  }

  /** Rows are never deleted, reordered or re-keyed in any run, proper or not. */
  lemma {:induction false} RowsPersist(st: State, budget: real, steps: seq<Step>)
    ensures |Run(st, budget, steps).rows| >= |st.rows|
    ensures forall i :: 0 <= i < |st.rows| ==> SameRow(st.rows[i], Run(st, budget, steps).rows[i])
  {
    if steps != [] {
      var front := steps[..|steps| - 1];
      RowsPersist(st, budget, front);
      StepKeepsRows(Run(st, budget, front), budget, steps[|steps| - 1]);
    }
  }

  lemma KeyFindsItsRow(rows: seq<Row>, i: nat, key: string)
    requires UniqueKeys(rows) && i < |rows| && rows[i].key == Some(key)
    ensures FindKey(rows, key) == Some(i)
  {
    var j := FindKey(rows, key).value;
    assert rows[j].key == rows[i].key;
  }

  /** The unique index survives every step, guarded or not: `reserve_budget` refuses a second row for a key. */
  lemma StepKeepsKeysUnique(st: State, budget: real, step: Step)
    requires UniqueKeys(st.rows)
    ensures UniqueKeys(Apply(st, budget, step).rows)
  {
    match step
    case DoReserve(q) =>
      assert q.key.Some? && FindKey(st.rows, q.key.value).None? ==>
          forall k :: 0 <= k < |st.rows| ==> st.rows[k].key != q.key;
    case _ =>
  }

  lemma {:induction false} KeysStayUnique(st: State, budget: real, steps: seq<Step>)
    requires UniqueKeys(st.rows)
    ensures UniqueKeys(Run(st, budget, steps).rows)
  {
    if steps != [] {
      var front := steps[..|steps| - 1];
      KeysStayUnique(st, budget, front);
      StepKeepsKeysUnique(Run(st, budget, front), budget, steps[|steps| - 1]);
    }
  }

  /**
   * Idempotency over all runs, with unguarded commits and any costs: once a key has a row, no later request with that
   * key creates another one. A live row is returned unchanged; the key of a released or expired row is used up.
   */
  lemma KeyIsSpent(st: State, budget: real, i: nat, steps: seq<Step>, q: Request)
    requires UniqueKeys(st.rows)
    requires i < |st.rows| && q.key.Some? && st.rows[i].key == q.key
    ensures var end := Run(st, budget, steps);
      var (after, result) := Reserve(end, budget, q);
      && after == end
      && !result.Granted?
      && i < |end.rows|
      && (end.rows[i].status == Reserved || end.rows[i].status == Committed <==> result == Existing(end.rows[i]))
  {
    RowsPersist(st, budget, steps);
    KeysStayUnique(st, budget, steps);
    var end := Run(st, budget, steps);
    assert SameRow(st.rows[i], end.rows[i]);
    KeyFindsItsRow(end.rows, i, q.key.value);
  }

  // ---- why the hypotheses are there ----

  const OPEN_HOLD := Request("r", 20.0, None, 1800 * TICKS_PER_SECOND, None)

  /**
   * Recording a call's cost before its reservation is settled counts it twice for as long as the hold is open. The
   * record does not fit: 20 of telemetry beside 20 of open holds is more than 25.
   */
  lemma UnsettledUsageCountsTwice(t: int)
    ensures var steps := [DoReserve(OPEN_HOLD), DoRecord(20.0)];
      && ProperRun(State([], [], t), 25.0, steps)
      && !FitsAt(State([], [], t), 25.0, steps, 1)
      && Consumption(Run(State([], [], t), 25.0, steps)) == 40.0
      && Exposure(Run(State([], [], t), 25.0, steps)) == 20.0
  {
    var s0, s1 := State([], [], t), State([NewRow(OPEN_HOLD, t)], [], t);
    var steps := [DoReserve(OPEN_HOLD), DoRecord(20.0)];
    OneRowTotals(NewRow(OPEN_HOLD, t), t);
    assert Apply(s0, 25.0, steps[0]) == s1;
    TwoSteps(s0, 25.0, steps);
    RecordAddsUsage(s1, 20.0);
  }

  lemma TwoSteps(st: State, budget: real, steps: seq<Step>)
    requires |steps| == 2
    ensures var s1 := Apply(st, budget, steps[0]);
      && Run(st, budget, steps[..0]) == st && Run(st, budget, steps[..1]) == s1
      && Run(st, budget, steps) == Apply(s1, budget, steps[1])
  {
    assert steps[..1][..0] == steps[..0];
  }

  const HOLD := Request("a", 20.0, None, 1800 * TICKS_PER_SECOND, None)
  const SECOND_HOLD := Request("b", 20.0, None, 1800 * TICKS_PER_SECOND, None)

  /**
   * A call that outlives its hold: the hold expires, its money is promised to a second call, and then the first call
   * settles. With a budget of 25 dollars the table holds 40.
   */
  lemma LateCommitBreaksBudget(t: int)
    ensures var steps := [DoReserve(HOLD), DoWait(HOLD.ttl), DoReserve(SECOND_HOLD), DoCommit("a", None, None)];
      && ProperRun(State([], [], t), 25.0, steps[..3])
      && !Proper(Run(State([], [], t), 25.0, steps[..3]), steps[3])
      && Exposure(Run(State([], [], t), 25.0, steps[..3])) == 20.0
      && Exposure(Run(State([], [], t), 25.0, steps)) == 40.0
  {
    var s0 := State([], [], t);
    var steps := [DoReserve(HOLD), DoWait(HOLD.ttl), DoReserve(SECOND_HOLD), DoCommit("a", None, None)];
    BothHoldsGranted(t);
    CommitAfterBoth(t);
    FourSteps(s0, 25.0, steps);
  }

  function HeldTwice(t: int): State {
    State([NewRow(HOLD, t), NewRow(SECOND_HOLD, t + HOLD.ttl)], [], t + HOLD.ttl)
  }

  /** The first hold expires, so the second one is granted too. */
  lemma BothHoldsGranted(t: int)
    ensures Apply(State([], [], t), 25.0, DoReserve(HOLD)) == State([NewRow(HOLD, t)], [], t)
    ensures Apply(State([NewRow(HOLD, t)], [], t + HOLD.ttl), 25.0, DoReserve(SECOND_HOLD)) == HeldTwice(t)
  {
    OneRowTotals(NewRow(HOLD, t), t);
    OneRowTotals(NewRow(HOLD, t), t + HOLD.ttl);
  }

  lemma CommitAfterBoth(t: int)
    ensures Exposure(HeldTwice(t)) == 20.0 && Exposure(Commit(HeldTwice(t), "a", None, None)) == 40.0
    ensures !Proper(HeldTwice(t), DoCommit("a", None, None))
  {
    var st := HeldTwice(t);
    TwoRowTotals(st.rows[0], st.rows[1], st.now);
    assert st.rows[..1] == [NewRow(HOLD, t)] && FindId(st.rows[..1], "a") == Some(0) && FindId(st.rows, "a") == Some(0);
    CommitEffect(st, 0, None, None);
  }

  lemma OneRowTotals(r: Row, now: int)
    ensures CommittedTotal([], now) == ReservedTotal([], now) == 0.0 && UsageTotal([], now) == 0.0
    ensures CommittedTotal([r], now) == CommittedCharge(r, now) && ReservedTotal([r], now) == ReservedCharge(r, now)
  {
    assert [r][..0] == [];
  }

  lemma TwoRowTotals(r: Row, s: Row, now: int)
    ensures CommittedTotal([r, s], now) == CommittedCharge(r, now) + CommittedCharge(s, now)
    ensures ReservedTotal([r, s], now) == ReservedCharge(r, now) + ReservedCharge(s, now)
  {
    assert [r, s][..1] == [r];
    OneRowTotals(r, now);
  }

  lemma FourSteps(st: State, budget: real, steps: seq<Step>)
    requires |steps| == 4
    ensures var s1 := Apply(st, budget, steps[0]);
      var s2 := Apply(s1, budget, steps[1]);
      var s3 := Apply(s2, budget, steps[2]);
      && Run(st, budget, steps[..0]) == st && Run(st, budget, steps[..1]) == s1 && Run(st, budget, steps[..2]) == s2
      && Run(st, budget, steps[..3]) == s3 && Run(st, budget, steps) == Apply(s3, budget, steps[3])
      && steps[..3][..0] == steps[..0] && steps[..3][..1] == steps[..1] && steps[..3][..2] == steps[..2]
  {
    assert steps[..1][..0] == steps[..0] && steps[..2][..1] == steps[..1] && steps[..3][..2] == steps[..2];
    assert steps[..3][..0] == steps[..0] && steps[..3][..1] == steps[..1];
  }
}
