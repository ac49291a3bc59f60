/**
 The early-stopping tracker of the fitting loop: it remembers the smallest
 loss seen so far and counts consecutive updates whose relative change
 against that minimum is no better than `eps`.

 Losses and `eps` are reals. The initial minimum, positive infinity, is an
 explicit constructor, and the one IEEE outcome the tracker depends on is
 kept: against an infinite minimum the relative delta is NaN, and every
 comparison with NaN is false.
 */
module EarlyStop {

  import opened Wrappers

  /** The running minimum: `Inf` until the first update, then a finite loss. */
  datatype Min = Inf | Fin(r: real)

  /** The relative delta `(loss - min) / min`: NaN when the minimum is infinite. */
  datatype Delta = NaN | Num(v: real)

  datatype Tracker = Tracker(minLoss: Min, eps: real, stopThreshold: int, satisNum: nat)

  /** What one call of `update` reports, together with the tracker after it. */
  datatype Step = Step(tracker: Tracker, isNewBest: bool, shouldStop: bool)

  /** The default parameters used by the fitting loop. */
  const DefaultEps: real := -0.001
  const DefaultThreshold: int := 10

  /** The order on minima, with `Inf` above every finite value. */
  predicate Le(a: Min, b: Min) {
    match (a, b)
    case (_, Inf) => true
    case (Inf, Fin(_)) => false
    case (Fin(x), Fin(y)) => x <= y
  }

  /** `x < m` where an infinite `m` is above every real. */
  predicate Below(x: real, m: Min) {
    m.Inf? || x < m.r
  }

  /** The smaller of a minimum and a loss. */
  function Least(m: Min, x: real): (r: Min) {
    match m
    case Inf => Fin(x)
    case Fin(y) => Fin(if x <= y then x else y)
  }

  /** The constructor: infinite minimum, counter at zero. */
  function Init(eps: real, stopThreshold: int): (t: Tracker)
    ensures t.minLoss == Inf && t.satisNum == 0
    ensures t.eps == eps && t.stopThreshold == stopThreshold
  {
    Tracker(Inf, eps, stopThreshold, 0)
  }

  /** A finite minimum of zero would make the relative delta divide by zero. */
  predicate CanUpdate(t: Tracker) {
    t.minLoss != Fin(0.0)
  }

  function RelativeDelta(loss: real, m: Min): (d: Delta)
    requires m != Fin(0.0)
  {
    match m
    case Inf => NaN
    case Fin(r) => Num((loss - r) / r)
  }

  /** `delta >= eps`, which is false for NaN. */
  predicate AtLeast(d: Delta, eps: real) {
    d.Num? && d.v >= eps
  }

  /**
   The counter rule without division: the loss failed to improve on the
   minimum `r` by more than `eps * r` (for a negative minimum the
   direction of the comparison flips). It never holds against `Inf`.
   */
  predicate Stagnant(m: Min, eps: real, loss: real) {
    match m
    case Inf => false
    case Fin(r) =>
      if r > 0.0 then loss - r >= eps * r
      else r < 0.0 && loss - r <= eps * r
  }

  /** Dividing by the minimum is the same as the division-free comparison. */
  lemma DeltaThreshold(m: Min, eps: real, loss: real)
    requires m != Fin(0.0)
    ensures AtLeast(RelativeDelta(loss, m), eps) <==> Stagnant(m, eps, loss)
  {
  }

  /**
   One call of `update`. The delta is read from the minimum as it was
   before the call; only then is the minimum lowered.
   */
  function Update(t: Tracker, loss: real): (s: Step)
    requires CanUpdate(t)
    ensures s.isNewBest <==> Below(loss, t.minLoss)
    ensures s.isNewBest <==> s.tracker.minLoss != t.minLoss
    ensures s.tracker.minLoss == Least(t.minLoss, loss)
    ensures Le(s.tracker.minLoss, t.minLoss)
    ensures s.tracker.satisNum == if Stagnant(t.minLoss, t.eps, loss) then t.satisNum + 1 else 0
    ensures s.shouldStop <==> s.tracker.satisNum >= t.stopThreshold
    ensures s.tracker.eps == t.eps && s.tracker.stopThreshold == t.stopThreshold
  {
    var delta := RelativeDelta(loss, t.minLoss);
    var isNewBest := Below(loss, t.minLoss);
    var minLoss := if isNewBest then Fin(loss) else t.minLoss;
    DeltaThreshold(t.minLoss, t.eps, loss);
    var satisNum := if AtLeast(delta, t.eps) then t.satisNum + 1 else 0;
    Step(Tracker(minLoss, t.eps, t.stopThreshold, satisNum), isNewBest, satisNum >= t.stopThreshold)
  }

  /**
   Feeds the losses to the tracker in order, one `update` each; `None` when
   some call would divide by a zero minimum.
   */
  function Feed(t: Tracker, losses: seq<real>): (r: Option<Tracker>)
    ensures r.Some? ==> r.value.eps == t.eps && r.value.stopThreshold == t.stopThreshold
    ensures r.Some? ==> Le(r.value.minLoss, t.minLoss)
    decreases |losses|
  {
    if |losses| == 0 then Some(t)
    else
      match Feed(t, losses[..|losses| - 1])
      case None => None
      case Some(u) =>
        if CanUpdate(u) then Some(Update(u, losses[|losses| - 1]).tracker) else None
  }

  /** The minimum after a fold is the least of the start and of every loss fed. */
  lemma {:induction false} FeedMinimum(t: Tracker, losses: seq<real>)
    requires Feed(t, losses).Some?
    ensures Le(Feed(t, losses).value.minLoss, t.minLoss)
    ensures forall i :: 0 <= i < |losses| ==> Le(Feed(t, losses).value.minLoss, Fin(losses[i]))
    ensures Feed(t, losses).value.minLoss == t.minLoss
         || exists i :: 0 <= i < |losses| && Feed(t, losses).value.minLoss == Fin(losses[i])
    decreases |losses|
  {
    if |losses| > 0 {
      var n := |losses| - 1;
      var front := losses[..n];
      FeedMinimum(t, front);
      var u := Feed(t, front).value;
      var m := Feed(t, losses).value.minLoss;
      assert m == Least(u.minLoss, losses[n]);
      forall i | 0 <= i < |losses|
        ensures Le(m, Fin(losses[i]))
      {
        if i < n {
          assert front[i] == losses[i];
        }
      }
      if m != t.minLoss && m != Fin(losses[n]) {
        assert m == u.minLoss;
        var i :| 0 <= i < |front| && u.minLoss == Fin(front[i]);
        assert m == Fin(losses[i]);
      }
    }
  }

  /** A fold can only fail on a zero minimum, which only a zero loss can bring. */
  lemma {:induction false} FeedFaultNeedsZero(t: Tracker, losses: seq<real>)
    requires Feed(t, losses).None?
    ensures !CanUpdate(t) || 0.0 in losses
    decreases |losses|
  {
    var n := |losses| - 1;
    var front := losses[..n];
    if Feed(t, front).None? {
      FeedFaultNeedsZero(t, front);
      if 0.0 in front {
        var i :| 0 <= i < |front| && front[i] == 0.0;
        assert losses[i] == 0.0;
      }
    } else {
      FeedMinimum(t, front);
      var u := Feed(t, front).value;
      assert u.minLoss == Fin(0.0);
      if u.minLoss != t.minLoss {
        var i :| 0 <= i < |front| && u.minLoss == Fin(front[i]);
        assert losses[i] == 0.0;
      }
    }
  }

  /** The first call from a fresh tracker: a new best, no stop, counter left at zero. */
  lemma FirstUpdate(eps: real, stopThreshold: int, loss: real)
    requires stopThreshold >= 1
    ensures Update(Init(eps, stopThreshold), loss)
         == Step(Tracker(Fin(loss), eps, stopThreshold, 0), true, false)
  {
  }

  /**
   Because the delta is read before the minimum is lowered, a new best
   whose relative improvement is within `|eps|` still counts as stagnant.
   */
  lemma SmallImprovementStillCounts(t: Tracker, loss: real)
    requires t.minLoss.Fin? && t.minLoss.r > 0.0
    requires loss < t.minLoss.r
    requires (loss - t.minLoss.r) / t.minLoss.r >= t.eps
    ensures Update(t, loss).isNewBest
    ensures Update(t, loss).tracker.minLoss == Fin(loss)
    ensures Update(t, loss).tracker.satisNum == t.satisNum + 1
  {
  }

  /** `count` copies of the same loss. */
  function Repeat(loss: real, count: nat): seq<real>
  {
    seq(count, _ => loss)
  }

  /**
   With `eps <= 0`, feeding the current positive minimum again adds one to
   the counter per call and leaves the minimum where it is.
   */
  lemma {:induction false} RepeatedLossCounts(t: Tracker, count: nat)
    requires t.minLoss.Fin? && t.minLoss.r > 0.0 && t.eps <= 0.0
    ensures Feed(t, Repeat(t.minLoss.r, count)).Some?
    ensures Feed(t, Repeat(t.minLoss.r, count)).value.minLoss == t.minLoss
    ensures Feed(t, Repeat(t.minLoss.r, count)).value.satisNum == t.satisNum + count
    decreases count
  {
    var loss := t.minLoss.r;
    if count > 0 {
      var ls := Repeat(loss, count);
      assert ls[..count - 1] == Repeat(loss, count - 1);
      RepeatedLossCounts(t, count - 1);
      var u := Feed(t, Repeat(loss, count - 1)).value;
      assert t.eps * loss <= 0.0 by {
        assert (0.0 - t.eps) * loss >= 0.0;
      }
      assert Stagnant(u.minLoss, u.eps, loss);
    }
  }

  /**
   Starting from the tracker the first loss leaves behind, the repeats of
   that loss signal stop first on the `stopThreshold`-th repeat.
   */
  lemma StopOnThresholdRepeat(eps: real, stopThreshold: int, loss: real, k: nat)
    requires eps <= 0.0 && loss > 0.0 && k >= 1
    ensures Feed(Init(eps, stopThreshold), [loss] + Repeat(loss, k - 1)).Some?
    ensures Update(Feed(Init(eps, stopThreshold), [loss] + Repeat(loss, k - 1)).value, loss).shouldStop
        <==> k >= stopThreshold
  {
    var first := Update(Init(eps, stopThreshold), loss).tracker;
    FeedAppend(Init(eps, stopThreshold), [loss], Repeat(loss, k - 1));
    assert Feed(Init(eps, stopThreshold), [loss]) == Some(first) by {
      assert [loss][..0] == [];
    }
    RepeatedLossCounts(first, k - 1);
  }

  /** Folding a concatenation is folding one part after the other. */
  lemma {:induction false} FeedAppend(t: Tracker, a: seq<real>, b: seq<real>)
    ensures Feed(t, a + b) == match Feed(t, a) case None => None case Some(u) => Feed(u, b)
    decreases |b|
  {
    if |b| == 0 {
      assert a + b == a;
    } else {
      var n := |b| - 1;
      assert (a + b)[..|a + b| - 1] == a + b[..n];
      assert (a + b)[|a + b| - 1] == b[n];
      FeedAppend(t, a, b[..n]);
    }
  }

  /**
   Positive losses that each improve on the previous one by more than the
   `eps` fraction are all new bests and never move the counter off zero.
   */
  lemma {:induction false} SteadyImprovementNeverCounts(eps: real, stopThreshold: int, losses: seq<real>)
    requires eps <= 0.0
    requires forall i :: 0 <= i < |losses| ==> losses[i] > 0.0
    requires forall i, j :: 0 <= i && j == i + 1 < |losses| ==> losses[j] - losses[i] < eps * losses[i]
    ensures Feed(Init(eps, stopThreshold), losses).Some?
    ensures Feed(Init(eps, stopThreshold), losses).value.satisNum == 0
    ensures |losses| > 0 ==> Feed(Init(eps, stopThreshold), losses).value.minLoss == Fin(losses[|losses| - 1])
    decreases |losses|
  {
    if |losses| > 0 {
      var n := |losses| - 1;
      var front := losses[..n];
      assert forall i :: 0 <= i < n ==> front[i] == losses[i];
      SteadyImprovementNeverCounts(eps, stopThreshold, front);
      var u := Feed(Init(eps, stopThreshold), front).value;
      if n > 0 {
        ClearImprovement(u, losses[n]);
      } else {
        assert front == [];
      }
    }
  }

  /** One update that beats a positive minimum by more than the `eps` fraction. */
  lemma ClearImprovement(t: Tracker, loss: real)
    requires t.minLoss.Fin? && t.minLoss.r > 0.0 && t.eps <= 0.0
    requires loss - t.minLoss.r < t.eps * t.minLoss.r
    ensures Update(t, loss).isNewBest
    ensures Update(t, loss).shouldStop <==> t.stopThreshold <= 0
    ensures Update(t, loss).tracker.minLoss == Fin(loss)
    ensures Update(t, loss).tracker.satisNum == 0
  {
  }

  /** Losses 10, 10, 10, 10 with `eps = -0.001` and threshold 3: stop on the fourth call only. */
  lemma FlatLossScenario()
    ensures Feed(Init(-0.001, 3), [10.0, 10.0]) == Some(Tracker(Fin(10.0), -0.001, 3, 1))
    ensures Feed(Init(-0.001, 3), [10.0, 10.0, 10.0]) == Some(Tracker(Fin(10.0), -0.001, 3, 2))
    ensures !Update(Tracker(Fin(10.0), -0.001, 3, 1), 10.0).shouldStop
    ensures Update(Tracker(Fin(10.0), -0.001, 3, 2), 10.0).shouldStop
  {
  }

  /**
   Losses 5, 3, 3, 3, 3, 3 with the default parameters: new bests on the
   first two calls only, and the counter ends at 4, short of the threshold.
   */
  lemma ImproveThenFlatScenario()
    ensures Feed(Init(DefaultEps, DefaultThreshold), [5.0, 3.0])
         == Some(Tracker(Fin(3.0), DefaultEps, DefaultThreshold, 0))
    ensures Feed(Init(DefaultEps, DefaultThreshold), [5.0, 3.0, 3.0, 3.0, 3.0, 3.0])
         == Some(Tracker(Fin(3.0), DefaultEps, DefaultThreshold, 4))
  {
    var t0 := Init(DefaultEps, DefaultThreshold);
    assert Feed(t0, [5.0]) == Some(Tracker(Fin(5.0), DefaultEps, DefaultThreshold, 0)) by {
      assert [5.0][..0] == [];
    }
    FeedSnoc(t0, [5.0], 3.0);
    assert [5.0] + [3.0] == [5.0, 3.0];
    var t2 := Tracker(Fin(3.0), DefaultEps, DefaultThreshold, 0);
    RepeatedLossCounts(t2, 4);
    FeedAppend(t0, [5.0, 3.0], Repeat(3.0, 4));
    assert [5.0, 3.0] + Repeat(3.0, 4) == [5.0, 3.0, 3.0, 3.0, 3.0, 3.0];
  }

  /** Folding one more loss is one more `update`. */
  lemma FeedSnoc(t: Tracker, losses: seq<real>, loss: real)
    ensures Feed(t, losses + [loss])
         == match Feed(t, losses)
            case None => None
            case Some(u) => if CanUpdate(u) then Some(Update(u, loss).tracker) else None
  {
  }
}
