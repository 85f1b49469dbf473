/**
 The dashboard metrics of an account, computed from its current snapshot:
 total profit and loss, distance to the target, and progress toward it.
 */
module Metrics {
  import opened Ledgers

  datatype Metrics = Metrics(balance: real, target: real, totalPnl: real, distance: real, progress: real)

  function Min(a: real, b: real): real {
    if a <= b then a else b
  }

  function Max(a: real, b: real): real {
    if a >= b then a else b
  }

  /**
   The fraction of the way from the initial capital to the target that the
   balance has covered, clamped to [0, 1]; exactly 0 when the target is not
   above the initial capital.
   */
  function Progress(initial: real, target: real, balance: real): (p: real)
    ensures 0.0 <= p <= 1.0
    ensures target - initial <= 0.0 ==> p == 0.0
    ensures target - initial > 0.0 ==> p == Max(0.0, Min(1.0, (balance - initial) / (target - initial)))
  {
    if target - initial > 0.0 then Max(0.0, Min(1.0, (balance - initial) / (target - initial))) else 0.0
  }

  /** The metrics shown for a snapshot row. */
  function ComputeMetrics(snap: Row): (m: Metrics)
    ensures m.balance == snap.Balance && m.target == snap.Target
    ensures m.totalPnl == snap.Balance - snap.Initial
    ensures m.distance == snap.Target - snap.Balance
    ensures 0.0 <= m.progress <= 1.0
    ensures m.progress == Progress(snap.Initial, snap.Target, snap.Balance)
  {
    var totalPnl := snap.Balance - snap.Initial;
    var distance := snap.Target - snap.Balance;
    Metrics(snap.Balance, snap.Target, totalPnl, distance, Progress(snap.Initial, snap.Target, snap.Balance))
  }

  /** With a target above the initial capital, progress is complete exactly when the balance has reached the target. */
  lemma ProgressCompleteIff(initial: real, target: real, balance: real)
    requires target - initial > 0.0
    ensures Progress(initial, target, balance) == 1.0 <==> balance >= target
  {
    var span := target - initial;
    var q := (balance - initial) / span;
    assert q * span == balance - initial;
    if balance >= target {
      assert q >= 1.0;
    } else {
      assert q < 1.0;
    }
  }

  /** With a target above the initial capital, progress is nil exactly when the balance is at or below the initial capital. */
  lemma ProgressNilIff(initial: real, target: real, balance: real)
    requires target - initial > 0.0
    ensures Progress(initial, target, balance) == 0.0 <==> balance <= initial
  {
    var span := target - initial;
    var q := (balance - initial) / span;
    assert q * span == balance - initial;
    if balance <= initial {
      assert q <= 0.0;
    } else {
      assert q > 0.0;
    }
  }

  /** Between the initial capital and the target, progress times the target gap is exactly the profit made. */
  lemma ProgressExact(initial: real, target: real, balance: real)
    requires target - initial > 0.0
    requires initial <= balance <= target
    ensures Progress(initial, target, balance) * (target - initial) == balance - initial
  {
    UnitFraction(balance - initial, target - initial);
  }

  /** A non-negative amount no larger than a positive whole is a fraction in [0, 1] of it. */
  lemma UnitFraction(x: real, y: real)
    requires 0.0 <= x <= y && 0.0 < y
    ensures 0.0 <= x / y <= 1.0
    ensures (x / y) * y == x
  {
    var q := x / y;
    assert q * y == x;
    assert (1.0 - q) * y == y - x;
  }

  /** A higher balance never shows less progress. */
  lemma ProgressMonotonic(initial: real, target: real, b1: real, b2: real)
    requires b1 <= b2
    ensures Progress(initial, target, b1) <= Progress(initial, target, b2)
  {
    var span := target - initial;
    if span > 0.0 {
      var q1 := (b1 - initial) / span;
      var q2 := (b2 - initial) / span;
      assert q2 - q1 == (b2 - b1) / span;
      assert q1 <= q2;
    }
  }
}
