/**
 A worked session of the tracker: one evaluation account is created, gains a
 day, then loses a day, and the dashboard metrics are checked after each step.
 */
module Scenario {
  import opened Ledgers
  import opened Accounts
  import opened Metrics
  import opened Mutations

  /** The ledger after creating "Eval1" and logging the given days. */
  function Session(user: string, days: nat): Ledger
    requires days <= 2
  {
    var l1 := CreateAccount([], "Eval1", "Apex", 25000.0, 26600.0, user, 1).ledger;
    if days == 0 then l1
    else
      var l2 := AppendDaily(l1, "Eval1", 2, 800.0, user).ledger;
      if days == 1 then l2 else AppendDaily(l2, "Eval1", 3, -1000.0, user).ledger
  }

  /** After creation the snapshot is the seed row, dated day 1 at 25000. */
  lemma CreatedSnapshot(user: string)
    ensures Snapshot(Session(user, 0), "Eval1").Some?
    ensures var s := Snapshot(Session(user, 0), "Eval1").value;
      s.Date == 1 && s.Balance == 25000.0 && s.Initial == 25000.0 && s.Target == 26600.0
  {
    CreateThenSnapshot([], "Eval1", "Apex", 25000.0, 26600.0, user, 1);
  }

  /** After the day-2 gain the snapshot is that day's row, at 25800. */
  lemma GainSnapshot(user: string)
    ensures Snapshot(Session(user, 1), "Eval1").Some?
    ensures var s := Snapshot(Session(user, 1), "Eval1").value;
      s.Date == 2 && s.Balance == 25800.0 && s.Initial == 25000.0 && s.Target == 26600.0
  {
    var l := Session(user, 0);
    CreatedSnapshot(user);
    forall i | 0 <= i < |l| && l[i].Account == "Eval1"
      ensures l[i].Date < 2
    {
      assert l[i] in l;
    }
    AppendLaterBecomesSnapshot(l, "Eval1", 2, 800.0, user);
  }

  /** After the day-3 loss the snapshot is that day's row, at 24800. */
  lemma LossSnapshot(user: string)
    ensures Snapshot(Session(user, 2), "Eval1").Some?
    ensures var s := Snapshot(Session(user, 2), "Eval1").value;
      s.Balance == 24800.0 && s.Initial == 25000.0 && s.Target == 26600.0
  {
    var l := Session(user, 1);
    GainSnapshot(user);
    forall i | 0 <= i < |l| && l[i].Account == "Eval1"
      ensures l[i].Date < 3
    {
      assert l[i] in l;
    }
    AppendLaterBecomesSnapshot(l, "Eval1", 3, -1000.0, user);
  }

  /**
   Account "Eval1" starts at 25000 with a target of 26600: no profit, 1600 to go,
   no progress. After a gain of 800 it stands at 25800, half way. After a loss
   of 1000 it stands at 24800, 200 down, 1800 to go, and progress is clamped to 0.
   */
  lemma EvalSession(user: string)
    ensures var l1 := CreateAccount([], "Eval1", "Apex", 25000.0, 26600.0, user, 1).ledger;
      var m1 := ComputeMetrics(Snapshot(l1, "Eval1").value);
      var l2 := AppendDaily(l1, "Eval1", 2, 800.0, user).ledger;
      var m2 := ComputeMetrics(Snapshot(l2, "Eval1").value);
      var l3 := AppendDaily(l2, "Eval1", 3, -1000.0, user).ledger;
      var m3 := ComputeMetrics(Snapshot(l3, "Eval1").value);
      && Snapshot(l1, "Eval1").Some? && Snapshot(l2, "Eval1").Some? && Snapshot(l3, "Eval1").Some?
      && m1.balance == 25000.0 && m1.totalPnl == 0.0 && m1.distance == 1600.0 && m1.progress == 0.0
      && m2.balance == 25800.0 && m2.totalPnl == 800.0 && m2.distance == 800.0 && m2.progress == 0.5
      && m3.balance == 24800.0 && m3.totalPnl == -200.0 && m3.distance == 1800.0 && m3.progress == 0.0
  {
    CreatedSnapshot(user);
    GainSnapshot(user);
    LossSnapshot(user);
    assert (25800.0 - 25000.0) / (26600.0 - 25000.0) == 0.5;
  }
}
