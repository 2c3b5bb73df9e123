/**
 * The two aggregates the page derives from a schedule: the total interest
 * (a left fold over the rows) and the chart series (one point per row).
 */
module Aggregates {
  import opened Finance
  import opened Overrides
  import opened Engine
  import opened ScheduleProperties

  /** `schedule.reduce((acc, row) => acc + row.interest, 0)`: the fold from the left. */
  function TotalInterest(schedule: seq<Row>): (t: real)
    ensures t == SumInterest(schedule)
  {
    FoldInterest(schedule, 0.0)
  }

  /** The fold with its accumulator, one row at a time from the front. */
  function FoldInterest(rows: seq<Row>, acc: real): (t: real)
    ensures t == acc + SumInterest(rows)
    decreases |rows|
  {
    if |rows| == 0 then acc
    else
      var t := FoldInterest(rows[1..], acc + rows[0].interest);
      assert rows == [rows[0]] + rows[1..];
      t
  }

  /** The interest of the rows, summed as a reference definition. */
  function SumInterest(rows: seq<Row>): real
    decreases |rows|
  {
    if |rows| == 0 then 0.0 else rows[0].interest + SumInterest(rows[1..])
  }

  /** The payments of the rows, summed. */
  function SumPayments(rows: seq<Row>): real
    decreases |rows|
  {
    if |rows| == 0 then 0.0 else rows[0].payment + SumPayments(rows[1..])
  }

  /** The balance left after the rows, for a run that opens at `opening`. */
  function Closing(rows: seq<Row>, opening: real): real
    decreases |rows|
  {
    if |rows| == 0 then opening else Closing(rows[1..], rows[0].ending)
  }

  /** A non-empty run closes at its last row's ending. */
  lemma {:induction false} ClosingIsLastEnding(rows: seq<Row>, opening: real)
    requires |rows| > 0
    ensures Closing(rows, opening) == rows[|rows| - 1].ending
    decreases |rows|
  {
    if |rows| > 1 {
      ClosingIsLastEnding(rows[1..], rows[0].ending);
    }
  }

  /** One point of the chart series. */
  datatype ChartPoint = ChartPoint(period: int, ending: real)

  /** `schedule.map(row => ({ period: row.period, ending: row.ending }))`. */
  function ChartData(schedule: seq<Row>): (c: seq<ChartPoint>)
    ensures |c| == |schedule|
    ensures forall i :: 0 <= i < |c| ==> c[i].period == schedule[i].period && c[i].ending == schedule[i].ending
  {
    seq(|schedule|, i requires 0 <= i < |schedule| => ChartPoint(schedule[i].period, schedule[i].ending))
  }

  /**
   * The chart of a simulation plots one point per period `1..n`, in order;
   * every point is a balance of zero or more, and each point but the last
   * is the balance the next period begins with.
   */
  lemma {:induction false} ChartTracksBalance(policy: SnapPolicy, pv: real, r: real, n: int, o: OverrideMap)
    requires r > -1.0 && pv > 0.0 && n > 0
    ensures var s := Simulate(policy, pv, r, n, o).schedule;
      var c := ChartData(s);
      && |c| == n
      && (forall i :: 0 <= i < n ==> c[i].period == i + 1 && c[i].ending >= 0.0)
      && (forall i :: 0 <= i < n - 1 ==> c[i].ending == s[i + 1].beginning)
  {
    ScheduleShape(policy, pv, r, n, o);
    EndingRule(policy, pv, r, n, o);
  }

  /**
   * Money is conserved over the rows for periods `k..n`: what the run opens
   * with plus the interest it accrues is what it pays plus what it closes
   * with, up to the rounding dust written off. The routed page writes off
   * nothing; the standalone page at most 1e-8 per period.
   */
  lemma {:induction false} RowsFromConserve(policy: SnapPolicy, r: real, n: int, o: OverrideMap, k: int, bal: real, active: real)
    requires r > -1.0 && 1 <= k
    ensures var rows := RowsFrom(policy, r, n, o, k, bal, active);
      var gap := bal + SumInterest(rows) - SumPayments(rows) - Closing(rows, bal);
      && 0.0 <= gap <= (|rows| as real) * DustEps
      && (policy == ClampAtZero ==> gap == 0.0)
    decreases n - k
  {
    if k <= n {
      var rows := RowsFrom(policy, r, n, o, k, bal, active);
      var row := Period(policy, r, o, k, bal, active);
      var next := if n - k > 0 then Pmt(row.ending, r, n - k) else active;
      var rest := RowsFrom(policy, r, n, o, k + 1, row.ending, next);
      RowsFromUnfold(policy, r, n, o, k, bal, active, row, next);
      assert rows[0] == row && rows[1..] == rest;
      PeriodWriteOff(policy, r, o, k, bal, active);
      RowsFromConserve(policy, r, n, o, k + 1, row.ending, next);
      assert |rows| as real == |rest| as real + 1.0;
    }
  }

  /** One period writes off between nothing and 1e-8, and nothing on the routed page. */
  lemma {:induction false} PeriodWriteOff(policy: SnapPolicy, r: real, o: OverrideMap, k: int, bal: real, active: real)
    requires r > -1.0
    ensures var row := Period(policy, r, o, k, bal, active);
      var off := bal + row.interest - row.payment - row.ending;
      && row.interest == r * bal
      && 0.0 <= off <= DustEps
      && (policy == ClampAtZero ==> off == 0.0)
  {
    Grown(bal, r);
  }

  /**
   * For valid inputs, principal plus total interest equals total payments
   * plus the final balance, exactly on the routed page and up to 1e-8 per
   * period on the standalone page.
   */
  lemma {:induction false} InterestBalancesPayments(policy: SnapPolicy, pv: real, r: real, n: int, o: OverrideMap)
    requires r > -1.0 && pv > 0.0 && n > 0
    ensures var s := Simulate(policy, pv, r, n, o).schedule;
      var gap := pv + TotalInterest(s) - SumPayments(s) - s[n - 1].ending;
      && 0.0 <= gap <= (n as real) * DustEps
      && (policy == ClampAtZero ==> gap == 0.0)
  {
    var s := Simulate(policy, pv, r, n, o).schedule;
    assert s == RowsFrom(policy, r, n, o, 1, pv, Pmt(pv, r, n));
    RowsFromConserve(policy, r, n, o, 1, pv, Pmt(pv, r, n));
    ClosingIsLastEnding(s, pv);
  }

  /**
   * On the routed page, a loan that closes on its original month (no
   * override in the last period, a zero rate or one on the annuity branch)
   * pays back exactly its principal plus the total interest.
   */
  lemma {:induction false} PaidInFull(pv: real, r: real, n: int, o: OverrideMap)
    requires r > -1.0 && pv > 0.0 && n > 0 && n !in o
    requires r == 0.0 || UsesAnnuity(r)
    ensures var s := Simulate(ClampAtZero, pv, r, n, o).schedule;
      SumPayments(s) == pv + TotalInterest(s)
  {
    InterestBalancesPayments(ClampAtZero, pv, r, n, o);
    PayoffAtTerm(ClampAtZero, pv, r, n, o);
  }

  /** A non-negative rate never yields negative total interest, and a zero rate none at all. */
  lemma {:induction false} TotalInterestSign(policy: SnapPolicy, pv: real, r: real, n: int, o: OverrideMap)
    requires r >= 0.0 && pv > 0.0 && n > 0
    ensures var s := Simulate(policy, pv, r, n, o).schedule;
      && TotalInterest(s) >= 0.0
      && (r == 0.0 ==> TotalInterest(s) == 0.0)
  {
    InterestsSign(policy, pv, r, n, o);
    InterestSign(Simulate(policy, pv, r, n, o).schedule, r);
  }

  /** Row by row: each interest is of the sign of the rate, and zero for a zero rate. */
  lemma {:induction false} InterestsSign(policy: SnapPolicy, pv: real, r: real, n: int, o: OverrideMap)
    requires r >= 0.0 && pv > 0.0 && n > 0
    ensures var s := Simulate(policy, pv, r, n, o).schedule;
      forall i :: 0 <= i < |s| ==> s[i].interest >= 0.0 && (r == 0.0 ==> s[i].interest == 0.0)
  {
    var s := Simulate(policy, pv, r, n, o).schedule;
    forall i | 0 <= i < |s|
      ensures s[i].interest >= 0.0 && (r == 0.0 ==> s[i].interest == 0.0)
    {
      var b := s[i].beginning;
      assert s[i].interest == r * b by {
        PaymentRule(policy, pv, r, n, o);
      }
      assert b >= 0.0 by {
        EndingRule(policy, pv, r, n, o);
      }
      ProductSign(r, b);
    }
  }

  /** The product of a non-negative rate and a non-negative balance. */
  lemma {:induction false} ProductSign(r: real, b: real)
    requires r >= 0.0 && b >= 0.0
    ensures r * b >= 0.0 && (r == 0.0 ==> r * b == 0.0)
  {
  }

  /** A sum of non-negative interests is non-negative, and a sum of zeros is zero. */
  lemma {:induction false} InterestSign(rows: seq<Row>, r: real)
    requires forall i :: 0 <= i < |rows| ==> rows[i].interest >= 0.0 && (r == 0.0 ==> rows[i].interest == 0.0)
    ensures SumInterest(rows) >= 0.0 && (r == 0.0 ==> SumInterest(rows) == 0.0)
    decreases |rows|
  {
    if |rows| > 0 {
      InterestSign(rows[1..], r);
    }
  }
}
