/**
 * The amortization engine with one-off payment overrides.
 *
 * Both copies of the engine (the routed simulation page and the older
 * standalone page) walk the periods `1..n` with a running balance, pay the
 * override of a period when there is one and the current equal payment
 * otherwise, cap the payment at what closes the loan, and re-amortize the
 * equal payment over the remaining horizon. They differ only in how a
 * period's ending balance is snapped, which `SnapPolicy` selects.
 */
module Engine {
  import opened Finance
  import opened Overrides

  /**
   * `ClampAtZero` is the routed page's `Math.max(0, ending)`;
   * `DustToZero` is the standalone page's "anything below 1e-8 becomes 0".
   */
  datatype SnapPolicy = ClampAtZero | DustToZero

  /** The rounding-dust threshold of the standalone page. */
  const DustEps: real := 1e-8

  /** The ending balance recorded for a period whose raw ending is `raw`. */
  function Snap(policy: SnapPolicy, raw: real): (e: real)
    ensures e >= 0.0
    ensures e == raw || e == 0.0
    ensures policy == ClampAtZero ==> (e == raw <==> raw >= 0.0)
    ensures policy == DustToZero ==> (e == 0.0 <==> raw < DustEps)
  {
    match policy
    case ClampAtZero => if raw > 0.0 then raw else 0.0
    case DustToZero => if raw < DustEps then 0.0 else raw
  }

  /** One row of the schedule. */
  datatype Row = Row(
    period: int,
    beginning: real,
    interest: real,
    payment: real,
    ending: real,
    suggested: real)

  /** What the engine returns: the no-override equal payment and the schedule. */
  datatype Simulation = Simulation(basePmt: real, schedule: seq<Row>)

  /** The payment asked for in period `k`: its override if present, else the equal payment. */
  function Requested(o: OverrideMap, k: int, suggested: real): real
  {
    if k in o then o[k] else suggested
  }

  /** One pass of the loop body: the row recorded for period `k`. */
  function Period(policy: SnapPolicy, r: real, o: OverrideMap, k: int, begin: real, suggested: real): Row
  {
    var interest := r * begin;
    var maxToClose := begin * (1.0 + r);
    var asked := Requested(o, k, suggested);
    var pay := if asked > maxToClose then maxToClose else asked;
    Row(k, begin, interest, pay, Snap(policy, begin + interest - pay), suggested)
  }

  /**
   * The rows for periods `k..n`, starting from balance `bal` with current
   * equal payment `active`; after each period with periods left, the equal
   * payment is recomputed on the new balance over those periods.
   */
  function RowsFrom(policy: SnapPolicy, r: real, n: int, o: OverrideMap, k: int, bal: real, active: real)
    : (rows: seq<Row>)
    requires r > -1.0
    ensures |rows| == if k <= n then n - k + 1 else 0
    decreases n - k
  {
    if k > n then []
    else
      var row := Period(policy, r, o, k, bal, active);
      var remaining := n - k;
      var next := if remaining > 0 then Pmt(row.ending, r, remaining) else active;
      [row] + RowsFrom(policy, r, n, o, k + 1, row.ending, next)
  }

  /**
   * The engine as a function of its inputs: nothing to show unless the
   * principal and the term are positive; otherwise the base payment and
   * the rows for periods `1..n`.
   */
  function Simulate(policy: SnapPolicy, pv: real, r: real, n: int, o: OverrideMap): (s: Simulation)
    requires r > -1.0
    ensures |s.schedule| == if pv > 0.0 && n > 0 then n else 0
  {
    if !(pv > 0.0) || !(n > 0) then Simulation(0.0, [])
    else Simulation(Pmt(pv, r, n), RowsFrom(policy, r, n, o, 1, pv, Pmt(pv, r, n)))
  }

  /**
   * The engine as the pages run it: a loop over the periods that keeps the
   * running balance, the remaining horizon and the current equal payment,
   * and appends one row per period.
   */
  method ComputeSchedule(policy: SnapPolicy, pv: real, r: real, n: int, o: OverrideMap)
    returns (basePmt: real, schedule: seq<Row>)
    requires r > -1.0
    ensures Simulation(basePmt, schedule) == Simulate(policy, pv, r, n, o)
    ensures !(pv > 0.0) || !(n > 0) ==> basePmt == 0.0 && schedule == []
  {
    if !(pv > 0.0) || !(n > 0) {
      return 0.0, [];
    }
    var rows: seq<Row> := [];
    var bal := pv;
    var remaining := n;
    var activePmt := Pmt(bal, r, remaining);
    ghost var all := RowsFrom(policy, r, n, o, 1, pv, activePmt);
    for k := 1 to n + 1
      invariant remaining == n - k + 1
      invariant rows + RowsFrom(policy, r, n, o, k, bal, activePmt) == all
    {
      var begin := bal;
      var interest := r * begin;
      var pay := if k in o then o[k] else activePmt;
      var maxToClose := begin * (1.0 + r);
      if pay > maxToClose {
        pay := maxToClose;
      }
      var end := Snap(policy, begin + interest - pay);
      var row := Row(k, begin, interest, pay, end, activePmt);
      ghost var done, suggested := rows, activePmt;
      rows := rows + [row];
      bal := end;
      remaining := n - k;
      if remaining > 0 {
        activePmt := Pmt(bal, r, remaining);
      }
      RowsFromUnfold(policy, r, n, o, k, begin, suggested, row, activePmt);
      AppendOne(done, row, RowsFrom(policy, r, n, o, k + 1, bal, activePmt));
    }
    basePmt := Pmt(pv, r, n);
    schedule := rows;
  }

  /** The first row of `RowsFrom` and what follows it. */
  lemma {:induction false} RowsFromUnfold(policy: SnapPolicy, r: real, n: int, o: OverrideMap, k: int, bal: real, active: real,
                       row: Row, next: real)
    requires r > -1.0 && 1 <= k <= n
    requires row == Period(policy, r, o, k, bal, active)
    requires next == if n - k > 0 then Pmt(row.ending, r, n - k) else active
    ensures RowsFrom(policy, r, n, o, k, bal, active) == [row] + RowsFrom(policy, r, n, o, k + 1, row.ending, next)
  {
  }

  /** `RowsFromUnfold`, element by element. */
  lemma {:induction false} RowsFromAt(policy: SnapPolicy, r: real, n: int, o: OverrideMap, k: int, bal: real, active: real,
                   row: Row, next: real)
    requires r > -1.0 && 1 <= k <= n
    requires row == Period(policy, r, o, k, bal, active)
    requires next == if n - k > 0 then Pmt(row.ending, r, n - k) else active
    ensures var rows, rest := RowsFrom(policy, r, n, o, k, bal, active), RowsFrom(policy, r, n, o, k + 1, row.ending, next);
      && |rows| == |rest| + 1
      && rows[0] == row
      && forall i :: 1 <= i < |rows| ==> rows[i] == rest[i - 1]
  {
    RowsFromUnfold(policy, r, n, o, k, bal, active, row, next);
  }

  /** Appending a row to the done part keeps the done part followed by the rest the same. */
  lemma {:induction false} AppendOne(done: seq<Row>, row: Row, rest: seq<Row>)
    ensures (done + [row]) + rest == done + ([row] + rest)
  {
  }
}
