/**
 The control skeleton of the fitting loop. The forward pass, the loss and
 the optimiser step are outside the model: the loss each epoch would
 produce is an input, and the snapshot taken on a new best is represented
 by the index of the epoch it was taken at.
 */
module Fit {

  import opened Wrappers
  import opened EarlyStop

  /**
   How a run ends: normally (after the epoch budget or on the stop
   signal), or raising at an epoch. A run raises either the division by
   zero of an update whose minimum has become zero, or, when `inMetrics`
   holds, the modulo by zero of the metrics check `epoch % WRITE` for a
   metrics interval `WRITE` of zero.
   */
  datatype Outcome =
    | Completed(epochs: nat, best: Option<nat>, tracker: Tracker, stopped: bool)
    | Raised(epoch: nat, inMetrics: bool)

  /** The tracker the loop creates, with its default parameters. */
  const Fresh: Tracker := Init(DefaultEps, DefaultThreshold)

  /** Python's `range(stop)`: the integers from 0 up to, not including, `stop`. */
  function Range(stop: int): seq<int>
    decreases stop
  {
    if stop <= 0 then [] else Range(stop - 1) + [stop - 1]
  }

  /** `range(stop)` lists 0, 1, ... in order, `stop` of them when `stop` is positive. */
  lemma {:induction false} RangeCounts(stop: int)
    ensures stop <= 0 ==> Range(stop) == []
    ensures stop > 0 ==> |Range(stop)| == stop
    ensures forall i :: 0 <= i < |Range(stop)| ==> Range(stop)[i] == i
    decreases stop
  {
    if stop > 0 {
      RangeCounts(stop - 1);
    }
  }

  /** The number of epochs the loop ranges over. */
  function Budget(maxEpoch: int): (n: nat)
    ensures n == |Range(maxEpoch)|
    ensures forall e :: 0 <= e < n ==> Range(maxEpoch)[e] == e
  {
    RangeCounts(maxEpoch);
    if maxEpoch > 0 then maxEpoch else 0
  }

  /** `k` is the first position of a least element of `s`. */
  predicate FirstArgMin(s: seq<real>, k: nat) {
    && k < |s|
    && (forall j :: 0 <= j < |s| ==> s[k] <= s[j])
    && (forall j :: 0 <= j < k ==> s[k] < s[j])
  }

  /** After the first `j` epochs the tracker is defined and has not signalled stop. */
  predicate Running(t0: Tracker, losses: seq<real>, j: nat)
    requires j <= |losses|
  {
    Feed(t0, losses[..j]).Some? && Feed(t0, losses[..j]).value.satisNum < t0.stopThreshold
  }

  /**
   The fitting loop over the per-epoch losses: one tracker update per
   epoch, a new snapshot on every new best, and a break on the first stop
   signal. `writeEvery` is the metrics interval: it only matters when it is
   zero, where the metrics check after the first update that does not
   stop raises.
   */
  method Train(maxEpoch: int, writeEvery: int, losses: seq<real>) returns (o: Outcome)
    requires maxEpoch <= |losses|
    ensures o.Completed? ==>
              && o.epochs <= Budget(maxEpoch)
              && Feed(Fresh, losses[..o.epochs]) == Some(o.tracker)
              && (o.stopped <==> o.epochs > 0 && o.tracker.satisNum >= DefaultThreshold)
              && (!o.stopped ==> o.epochs == Budget(maxEpoch))
    ensures o.Completed? ==> forall j :: 0 < j < o.epochs ==> Running(Fresh, losses, j)
    ensures o.Completed? ==> (o.best.None? <==> o.epochs == 0)
    ensures o.Completed? && o.best.Some? ==>
              FirstArgMin(losses[..o.epochs], o.best.value) && o.tracker.minLoss == Fin(losses[o.best.value])
    ensures o.Raised? ==> o.epoch < Budget(maxEpoch) && forall j :: 0 < j <= o.epoch ==> Running(Fresh, losses, j)
    ensures o.Raised? && !o.inMetrics ==>
              && 0.0 in losses[..o.epoch]
              && Feed(Fresh, losses[..o.epoch]).Some?
              && !CanUpdate(Feed(Fresh, losses[..o.epoch]).value)
    ensures o.Raised? && o.inMetrics ==> writeEvery == 0 && Running(Fresh, losses, o.epoch + 1)
    ensures writeEvery == 0 && Budget(maxEpoch) > 0 ==> o == Raised(0, true)
  {
    var limit := Budget(maxEpoch);
    assert limit <= |losses|;
    var t := Fresh;
    var best: Option<nat> := None;
    var epoch := 0;
    while epoch < limit
      invariant epoch <= limit
      invariant Feed(Fresh, losses[..epoch]) == Some(t)
      invariant t.stopThreshold == DefaultThreshold
      invariant forall j :: 0 < j <= epoch ==> Running(Fresh, losses, j)
      invariant best.None? <==> epoch == 0
      invariant best.None? ==> t == Fresh
      invariant writeEvery == 0 ==> epoch == 0
      invariant best.Some? ==> FirstArgMin(losses[..epoch], best.value) && t.minLoss == Fin(losses[best.value])
    {
      if !CanUpdate(t) {
        assert losses[..epoch][best.value] == 0.0;
        return Raised(epoch, false);
      }
      var s := Update(t, losses[epoch]);
      assert losses[..epoch + 1] == losses[..epoch] + [losses[epoch]];
      FeedSnoc(Fresh, losses[..epoch], losses[epoch]);
      if s.isNewBest {
        best := Some(epoch);
      }
      if s.shouldStop {
        return Completed(epoch + 1, best, s.tracker, true);
      }
      if writeEvery == 0 {
        return Raised(epoch, true);
      }
      t := s.tracker;
      epoch := epoch + 1;
    }
    if epoch > 0 {
      assert Running(Fresh, losses, epoch);
    }
    return Completed(epoch, best, t, false);
  }
}
