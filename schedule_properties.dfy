/**
 * What the engine promises about the schedule it builds: its shape, the
 * rule each period follows, re-amortization, payoff at term, the level
 * payment of a schedule without overrides, and the locality of overrides.
 */
module ScheduleProperties {
  import opened Finance
  import opened Overrides
  import opened Engine

  /** `b + r * b` is the balance grown by one period of interest. */
  lemma {:induction false} Grown(b: real, r: real)
    ensures b + r * b == b * (1.0 + r)
  {
  }

  /**
   * The rows for periods `k..n` are numbered from `k` and each is built by
   * `Period` from its own beginning balance and suggested payment.
   */
  lemma {:induction false} RowsFromRule(policy: SnapPolicy, r: real, n: int, o: OverrideMap, k: int, bal: real, active: real)
    requires r > -1.0 && 1 <= k
    ensures var rows := RowsFrom(policy, r, n, o, k, bal, active);
      forall i :: 0 <= i < |rows| ==>
        rows[i].period == k + i && rows[i] == Period(policy, r, o, k + i, rows[i].beginning, rows[i].suggested)
    decreases n - k
  {
    if k <= n {
      var rows := RowsFrom(policy, r, n, o, k, bal, active);
      var row := Period(policy, r, o, k, bal, active);
      var next := if n - k > 0 then Pmt(row.ending, r, n - k) else active;
      var rest := RowsFrom(policy, r, n, o, k + 1, row.ending, next);
      RowsFromAt(policy, r, n, o, k, bal, active, row, next);
      RowsFromRule(policy, r, n, o, k + 1, row.ending, next);
      forall i | 0 <= i < |rows|
        ensures rows[i].period == k + i
        ensures rows[i] == Period(policy, r, o, k + i, rows[i].beginning, rows[i].suggested)
      {
        if i == 0 {
          assert rows[0] == row;
        } else {
          assert rows[i] == rest[i - 1];
          assert k + 1 + (i - 1) == k + i;
        }
      }
    }
  }

  /**
   * The first of the rows for periods `k..n` starts from `bal` and `active`;
   * every later one starts from the previous ending, with the equal payment
   * recomputed on it over the periods still to go.
   */
  lemma {:induction false} RowsFromLinks(policy: SnapPolicy, r: real, n: int, o: OverrideMap, k: int, bal: real, active: real)
    requires r > -1.0 && 1 <= k
    ensures var rows := RowsFrom(policy, r, n, o, k, bal, active);
      && (k <= n ==> rows[0].beginning == bal && rows[0].suggested == active)
      && (forall i :: 1 <= i < |rows| ==>
            rows[i].beginning == rows[i - 1].ending
            && rows[i].suggested == Pmt(rows[i - 1].ending, r, n - (k + i - 1)))
    decreases n - k
  {
    if k <= n {
      var rows := RowsFrom(policy, r, n, o, k, bal, active);
      var row := Period(policy, r, o, k, bal, active);
      var next := if n - k > 0 then Pmt(row.ending, r, n - k) else active;
      var rest := RowsFrom(policy, r, n, o, k + 1, row.ending, next);
      RowsFromAt(policy, r, n, o, k, bal, active, row, next);
      RowsFromLinks(policy, r, n, o, k + 1, row.ending, next);
      forall i | 1 <= i < |rows|
        ensures rows[i].beginning == rows[i - 1].ending
        ensures rows[i].suggested == Pmt(rows[i - 1].ending, r, n - (k + i - 1))
      {
        assert rows[i] == rest[i - 1];
        if i == 1 {
          assert rows[0] == row;
        } else {
          assert rows[i - 1] == rest[i - 2];
          assert n - (k + 1 + (i - 1) - 1) == n - (k + i - 1);
        }
      }
    }
  }

  /** Both of the above. */
  lemma {:induction false} RowsFromChain(policy: SnapPolicy, r: real, n: int, o: OverrideMap, k: int, bal: real, active: real)
    requires r > -1.0 && 1 <= k
    ensures var rows := RowsFrom(policy, r, n, o, k, bal, active);
      && (k <= n ==> rows[0].beginning == bal && rows[0].suggested == active)
      && (forall i :: 0 <= i < |rows| ==>
            rows[i].period == k + i
            && rows[i] == Period(policy, r, o, k + i, rows[i].beginning, rows[i].suggested))
      && (forall i :: 1 <= i < |rows| ==>
            rows[i].beginning == rows[i - 1].ending
            && rows[i].suggested == Pmt(rows[i - 1].ending, r, n - (k + i - 1)))
  {
    RowsFromRule(policy, r, n, o, k, bal, active);
    RowsFromLinks(policy, r, n, o, k, bal, active);
  }

  /**
   * For valid inputs the schedule has one row per period `1..n` in order,
   * the first row begins at the principal, every later row begins at the
   * previous row's ending, and the base payment is the equal payment over
   * the full term whatever the overrides.
   */
  lemma {:induction false} ScheduleShape(policy: SnapPolicy, pv: real, r: real, n: int, o: OverrideMap)
    requires r > -1.0 && pv > 0.0 && n > 0
    ensures var s := Simulate(policy, pv, r, n, o);
      && s.basePmt == Pmt(pv, r, n)
      && |s.schedule| == n
      && s.schedule[0].beginning == pv
      && (forall i :: 0 <= i < n ==> s.schedule[i].period == i + 1)
      && (forall i :: 1 <= i < n ==> s.schedule[i].beginning == s.schedule[i - 1].ending)
  {
    RowsFromChain(policy, r, n, o, 1, pv, Pmt(pv, r, n));
  }

  /**
   * Re-amortization: the first row suggests the equal payment over the full
   * term, and each later row the equal payment of the previous row's
   * ending balance over the periods left after that row.
   */
  lemma {:induction false} Reamortization(policy: SnapPolicy, pv: real, r: real, n: int, o: OverrideMap)
    requires r > -1.0 && pv > 0.0 && n > 0
    ensures var s := Simulate(policy, pv, r, n, o).schedule;
      && s[0].suggested == Pmt(pv, r, n)
      && (forall i :: 1 <= i < n ==> s[i].suggested == Pmt(s[i - 1].ending, r, n - i))
  {
    RowsFromChain(policy, r, n, o, 1, pv, Pmt(pv, r, n));
  }

  /**
   * Each row accrues `r` times its beginning balance, and pays the override
   * of its period when there is one and its suggested payment otherwise,
   * trimmed to the amount that closes the balance with its interest.
   */
  lemma {:induction false} PaymentRule(policy: SnapPolicy, pv: real, r: real, n: int, o: OverrideMap)
    requires r > -1.0 && pv > 0.0 && n > 0
    ensures var s := Simulate(policy, pv, r, n, o).schedule;
      forall i :: 0 <= i < n ==>
        var asked := if i + 1 in o then o[i + 1] else s[i].suggested;
        var maxToClose := s[i].beginning * (1.0 + r);
        && s[i].interest == r * s[i].beginning
        && s[i].payment == (if asked > maxToClose then maxToClose else asked)
        && s[i].payment <= maxToClose
  {
    RowsFromChain(policy, r, n, o, 1, pv, Pmt(pv, r, n));
  }

  /**
   * Balances are never negative. Under `ClampAtZero` the clamp at zero never
   * bites: each ending is exactly beginning plus interest minus payment.
   * Under `DustToZero` that amount is kept unless it is below 1e-8, when it
   * becomes exactly zero.
   */
  lemma {:induction false} EndingRule(policy: SnapPolicy, pv: real, r: real, n: int, o: OverrideMap)
    requires r > -1.0 && pv > 0.0 && n > 0
    ensures var s := Simulate(policy, pv, r, n, o).schedule;
      forall i :: 0 <= i < n ==>
        var raw := s[i].beginning + s[i].interest - s[i].payment;
        && s[i].beginning >= 0.0
        && s[i].ending >= 0.0
        && raw >= 0.0
        && (policy == ClampAtZero ==> s[i].ending == raw)
        && (policy == DustToZero ==> s[i].ending == if raw < DustEps then 0.0 else raw)
  {
    var s := Simulate(policy, pv, r, n, o).schedule;
    RowsFromChain(policy, r, n, o, 1, pv, Pmt(pv, r, n));
    forall i | 0 <= i < n
      ensures s[i].beginning >= 0.0
      ensures s[i].beginning + s[i].interest - s[i].payment >= 0.0
    {
      if i > 0 {
        assert s[i].beginning == s[i - 1].ending;
      }
      Grown(s[i].beginning, r);
    }
  }

  /**
   * The loan closes on its original month: when the last period has no
   * override, its ending balance is zero, except for a positive rate in the
   * straight-line band (below 1e-12), where only the balance is paid and
   * the last period's interest is left over.
   */
  lemma {:induction false} PayoffAtTerm(policy: SnapPolicy, pv: real, r: real, n: int, o: OverrideMap)
    requires r > -1.0 && pv > 0.0 && n > 0 && n !in o
    ensures var last := Simulate(policy, pv, r, n, o).schedule[n - 1];
      && (r <= 0.0 || UsesAnnuity(r) ==> last.ending == 0.0)
      && (r > 0.0 && !UsesAnnuity(r) ==> last.ending == Snap(policy, r * last.beginning))
  {
    var last := Simulate(policy, pv, r, n, o).schedule[n - 1];
    assert last.beginning >= 0.0 && last == Period(policy, r, o, n, last.beginning, Pmt(last.beginning, r, 1)) by {
      var s := RowsFrom(policy, r, n, o, 1, pv, Pmt(pv, r, n));
      assert Simulate(policy, pv, r, n, o).schedule == s;
      RowsFromChain(policy, r, n, o, 1, pv, Pmt(pv, r, n));
      if n > 1 {
        assert s[n - 1].beginning == s[n - 2].ending;
        assert s[n - 1].suggested == Pmt(s[n - 2].ending, r, 1);
      }
    }
    LastPeriod(policy, r, o, n, last.beginning);
  }

  /** A last period paying its suggested one-period payment. */
  lemma {:induction false} LastPeriod(policy: SnapPolicy, r: real, o: OverrideMap, k: int, b: real)
    requires r > -1.0 && b >= 0.0 && k !in o
    ensures var row := Period(policy, r, o, k, b, Pmt(b, r, 1));
      && (r <= 0.0 || UsesAnnuity(r) ==> row.ending == 0.0)
      && (r > 0.0 && !UsesAnnuity(r) ==> row.ending == Snap(policy, r * b))
  {
    PmtOnePeriod(b, r);
    LastPeriodPays(policy, r, o, k, b, Pmt(b, r, 1));
  }

  /** The last period, for a suggested payment `p` of one period's worth. */
  lemma {:induction false} LastPeriodPays(policy: SnapPolicy, r: real, o: OverrideMap, k: int, b: real, p: real)
    requires r > -1.0 && b >= 0.0 && k !in o
    requires UsesAnnuity(r) ==> p == b * (1.0 + r)
    requires !UsesAnnuity(r) ==> p == b
    ensures var row := Period(policy, r, o, k, b, p);
      && (r <= 0.0 || UsesAnnuity(r) ==> row.ending == 0.0)
      && (r > 0.0 && !UsesAnnuity(r) ==> row.ending == Snap(policy, r * b))
  {
    Grown(b, r);
    if r <= 0.0 && !UsesAnnuity(r) {
      assert b * (1.0 + r) <= b;
    }
  }

  /**
   * Without overrides, on a zero rate or a rate on the annuity branch and
   * with the routed page's snapping, every period suggests and pays the
   * base payment: re-amortizing after a period paid as suggested gives the
   * same equal payment back.
   */
  lemma {:induction false} LevelPaymentWithoutOverrides(pv: real, r: real, n: int, o: OverrideMap)
    requires r > -1.0 && pv > 0.0 && n > 0
    requires r == 0.0 || UsesAnnuity(r)
    requires forall p :: 1 <= p <= n ==> p !in o
    ensures var sim := Simulate(ClampAtZero, pv, r, n, o);
      forall i :: 0 <= i < n ==>
        sim.schedule[i].suggested == sim.basePmt && sim.schedule[i].payment == sim.basePmt
  {
    var p := Pmt(pv, r, n);
    assert Simulate(ClampAtZero, pv, r, n, o) == Simulation(p, RowsFrom(ClampAtZero, r, n, o, 1, pv, p));
    RowsFromLevel(r, n, o, 1, pv, p);
  }

  lemma {:induction false} RowsFromLevel(r: real, n: int, o: OverrideMap, k: int, bal: real, active: real)
    requires r > -1.0 && 1 <= k <= n && bal >= 0.0
    requires r == 0.0 || UsesAnnuity(r)
    requires forall p :: k <= p <= n ==> p !in o
    requires active == Pmt(bal, r, n - k + 1)
    ensures var rows := RowsFrom(ClampAtZero, r, n, o, k, bal, active);
      forall i :: 0 <= i < |rows| ==> rows[i].suggested == active && rows[i].payment == active
    decreases n - k
  {
    var rows := RowsFrom(ClampAtZero, r, n, o, k, bal, active);
    var row := Period(ClampAtZero, r, o, k, bal, active);
    Grown(bal, r);
    if k < n {
      PmtReamortizes(bal, r, n - k + 1);
      var raw := bal * (1.0 + r) - active;
      assert row.payment == active && row.ending == raw;
      assert Pmt(raw, r, n - k) == active;
      RowsFromUnfold(ClampAtZero, r, n, o, k, bal, active, row, active);
      RowsFromLevel(r, n, o, k + 1, raw, active);
      var rest := RowsFrom(ClampAtZero, r, n, o, k + 1, raw, active);
      assert rows == [row] + rest;
      forall i | 1 <= i < |rows|
        ensures rows[i] == rest[i - 1]
      {
      }
    } else {
      PmtOnePeriod(bal, r);
      assert active == bal * (1.0 + r);
      RowsFromUnfold(ClampAtZero, r, n, o, k, bal, active, row, active);
      assert rows == [row];
    }
  }

  /** Two override maps that agree on the periods `1..j`. */
  ghost predicate AgreeThrough(o1: OverrideMap, o2: OverrideMap, j: int)
  {
    forall p :: 1 <= p <= j ==> (p in o1 <==> p in o2) && (p in o1 ==> o1[p] == o2[p])
  }

  /**
   * Overrides are one-off and act forward only: the first `j` rows depend
   * on the overrides of periods `1..j` alone, so a row is unaffected by any
   * override of a later period.
   */
  lemma {:induction false} OverrideLocality(policy: SnapPolicy, pv: real, r: real, n: int, o1: OverrideMap, o2: OverrideMap, j: int)
    requires r > -1.0 && 0 <= j <= n
    requires AgreeThrough(o1, o2, j)
    ensures var s1, s2 := Simulate(policy, pv, r, n, o1).schedule, Simulate(policy, pv, r, n, o2).schedule;
      |s1| == |s2| && (forall i :: 0 <= i < j && i < |s1| ==> s1[i] == s2[i])
  {
    if pv > 0.0 && n > 0 {
      var p := Pmt(pv, r, n);
      assert Simulate(policy, pv, r, n, o1).schedule == RowsFrom(policy, r, n, o1, 1, pv, p);
      assert Simulate(policy, pv, r, n, o2).schedule == RowsFrom(policy, r, n, o2, 1, pv, p);
      RowsFromLocal(policy, r, n, o1, o2, 1, pv, p, j);
    }
  }

  lemma {:induction false} RowsFromLocal(policy: SnapPolicy, r: real, n: int, o1: OverrideMap, o2: OverrideMap,
                                         k: int, bal: real, active: real, j: int)
    requires r > -1.0 && 1 <= k && j <= n
    requires AgreeThrough(o1, o2, j)
    ensures var rows1, rows2 := RowsFrom(policy, r, n, o1, k, bal, active), RowsFrom(policy, r, n, o2, k, bal, active);
      forall i :: 0 <= i && k + i <= j ==> rows1[i] == rows2[i]
    decreases n - k
  {
    if k <= j {
      var rows1, rows2 := RowsFrom(policy, r, n, o1, k, bal, active), RowsFrom(policy, r, n, o2, k, bal, active);
      var row := Period(policy, r, o1, k, bal, active);
      assert Requested(o1, k, active) == Requested(o2, k, active);
      assert row == Period(policy, r, o2, k, bal, active);
      var next := if n - k > 0 then Pmt(row.ending, r, n - k) else active;
      RowsFromUnfold(policy, r, n, o1, k, bal, active, row, next);
      RowsFromUnfold(policy, r, n, o2, k, bal, active, row, next);
      RowsFromLocal(policy, r, n, o1, o2, k + 1, row.ending, next, j);
      forall i | 0 <= i && k + i <= j
        ensures rows1[i] == rows2[i]
      {
        if i > 0 {
          assert rows1[i] == RowsFrom(policy, r, n, o1, k + 1, row.ending, next)[i - 1];
          assert rows2[i] == RowsFrom(policy, r, n, o2, k + 1, row.ending, next)[i - 1];
        }
      }
    }
  }
}
