# Early stopping and the fitting loop of smplpytorch

This project models the part of `fit/tools/train.py` in smplpytorch that is not a library call. The file fits a parametric body model to target joints. Three pieces are modelled:

- **The `Early_Stop` tracker** (module `EarlyStop`). It keeps the least loss seen so far, starting at +infinity. It also counts consecutive updates whose relative change against that minimum is not below `eps`. Each update reports two flags: "new best" and "stop". Losses and `eps` are `real`s. The initial minimum is an explicit constructor `Inf`. The IEEE behaviour of the first call is kept: `(loss - inf) / inf` is NaN, and `NaN >= eps` is false, so the first call resets the counter. A finite minimum of exactly zero makes Python raise `ZeroDivisionError`. `Update` therefore requires a non-zero finite minimum (`CanUpdate`). The fold `Feed` returns `None` at that point rather than requiring it away.
- **The data-map unzip** (module `DataMap`). The list of (model joint, data-set joint) pairs is split into two parallel index lists.
- **The control skeleton of `train`** (module `Fit`). The loss each epoch would produce is a given sequence. The loop updates a fresh tracker with the default parameters (`eps = -0.001`, threshold 10). It takes a snapshot on every new best and breaks on the first stop signal. A snapshot is represented by the index of the epoch at which it was last assigned. `Train` reports the errors the loop can raise as an outcome, `Raised(epoch, inMetrics)`, instead of excluding them. One is the division by zero of an update whose minimum is zero (`inMetrics` false). The other is the modulo by zero of the metrics check `epoch % WRITE` when the metrics interval `WRITE` is zero (`inMetrics` true). `Train` takes `WRITE` as its parameter `writeEvery`.

The counter rule is stated two ways. The contract of `Update` uses a division-free form, `Stagnant`: for a positive minimum `m`, the call counts when `loss - m >= eps * m`. Lemma `DeltaThreshold` proves this is the same as the source's `(loss - m) / m >= eps`.

An infinite minimum never causes a division by zero; only a finite minimum of exactly 0.0 does (fit/tools/train.py:19).

## Model

| member | source | states |
|---|---|---|
| EarlyStop.Init | fit/tools/train.py:12-16 | A new tracker has an infinite minimum and a zero counter, and keeps the given `eps` and threshold. |
| EarlyStop.DeltaThreshold | fit/tools/train.py:19-25 | For a nonzero minimum `m`, `(loss - m) / m >= eps` holds exactly when the division-free condition holds. For a positive `m` that condition is `loss - m >= eps * m`; for a negative `m` the comparison flips. Against an infinite minimum the delta is NaN, so the test is false. |
| EarlyStop.Update | fit/tools/train.py:18-29 | "New best" holds exactly when the loss is strictly below the old minimum. It also holds exactly when the minimum changes. The new minimum is the smaller of the old minimum and the loss, so it never rises. The counter becomes old + 1 when the call is stagnant against the OLD minimum and 0 otherwise. Stop holds exactly when the new counter reaches the threshold. `eps` and the threshold are unchanged. A zero finite minimum is excluded, because there Python raises. |
| EarlyStop.Feed | fit/tools/train.py:18-29 | Over any run of updates that does not fault, `eps` and the threshold stay fixed and the minimum never rises. |
| EarlyStop.FeedMinimum | fit/tools/train.py:20-21 | After a run of updates, the minimum is at most the starting minimum and at most every loss fed. It also equals the starting minimum or one of the losses. |
| EarlyStop.FeedFaultNeedsZero | fit/tools/train.py:19 | A run of updates can hit the division by zero only if it started from a zero minimum or some loss fed was exactly 0. |
| EarlyStop.FirstUpdate | fit/tools/train.py:13-29 | The first call on a fresh tracker with threshold at least 1 returns (new best, no stop). It sets the minimum to the loss and leaves the counter at 0. |
| EarlyStop.SmallImprovementStillCounts | fit/tools/train.py:19-28 | A new best that improves on a positive minimum by less than the `eps` fraction still increments the counter. This holds because the delta is read before the minimum is lowered. |
| EarlyStop.ClearImprovement | fit/tools/train.py:19-28 | Take `eps <= 0` and a positive minimum. A loss that beats the minimum by more than the `eps` fraction is a new best. It becomes the minimum and resets the counter. It signals stop only when the threshold is at most 0. |
| EarlyStop.RepeatedLossCounts | fit/tools/train.py:19-28 | Take `eps <= 0` and a positive minimum L. Feeding L again k times leaves the minimum at L and raises the counter by exactly k. |
| EarlyStop.StopOnThresholdRepeat | fit/tools/train.py:13-29 | Take a fresh tracker and `eps <= 0`. After a positive loss, the k-th repeat of that loss signals stop exactly when k reaches the threshold. With the defaults, this is ten non-improving calls. |
| EarlyStop.SteadyImprovementNeverCounts | fit/tools/train.py:19-28 | Take positive losses that each beat the previous one by more than the `eps` fraction, with `eps <= 0`. Each becomes the minimum in turn, and the counter stays at 0. |
| EarlyStop.FlatLossScenario | fit/tools/train.py:19-29 | With `eps = -0.001`, threshold 3 and losses 10, 10, 10, 10, the counter goes 0, 1, 2, 3. Stop is signalled on the fourth call and not on the third. |
| EarlyStop.ImproveThenFlatScenario | fit/tools/train.py:12-29 | With the defaults and losses 5, 3, 3, 3, 3, 3, the counter is 0 after the first two calls and ends at 4, below the threshold of 10. |
| DataMap.UnzipIndex | fit/tools/train.py:52-56 | Both index lists have the data map's length. Position i holds the first or the second component of the i-th pair, in order. Zipping the two lists gives back the data map. |
| DataMap.UnzipExample | fit/tools/train.py:52-56 | The data map [(0,1),(2,3)] splits into model indices [0,2] and data-set indices [1,3]. |
| Fit.RangeCounts | fit/tools/train.py:75 | `range(stop)` is empty when `stop` is not positive. Otherwise it has `stop` elements, and position i holds i. |
| Fit.Budget | fit/tools/train.py:75 | The epoch count is the length of `range(MAX_EPOCH)`, and the loop visits epochs 0, 1, ... in that order, each epoch number equal to its position. |
| Fit.Train | fit/tools/train.py:67-100 | The loop runs at most `MAX_EPOCH` epochs. The final tracker is the fold of `update` over exactly the epochs run. No epoch before the last signalled stop. A run that completes ends early only on a stop signal. No epoch before one that raises signalled stop. The snapshot is empty exactly when no epoch ran. Otherwise the last assignment of the snapshot happens at the first epoch holding the least loss among those run, and that loss is the final minimum. A division by zero is reported only before the budget runs out, only when the tracker's minimum at that epoch is exactly 0, and only after an earlier epoch's loss was exactly 0. The modulo error is raised only for a zero `WRITE`, after an update that did not stop. With a zero `WRITE` and a positive budget, the run always raises it right after the first epoch. |

## Left out

- The body-model forward pass, `F.smooth_l1_loss`, `loss.backward()` and the Adam step (fit/tools/train.py:48-49, 77-82). These are automatic differentiation and optimiser internals of torch, which is not part of this model. Each epoch's loss is an input to `Fit.Train`, and the model must supply one for every epoch the loop can reach.
- The snapshot contents (pose, shape, vertices and joints tensors). The snapshot is identified by the epoch at which it was last assigned.
- Fit.Train: `best` is the epoch of the last snapshot assignment (fit/tools/train.py:86), not the epoch whose parameters are returned. The pose and shape entries of the snapshot are the live parameter tensors. The optimiser updates them in place at every later step (lines 44, 48, 82), so on return they hold their values after the last optimiser step. Only the vertices and joints come from epoch `best`; they were computed from the parameters before that epoch's step. The model does not track tensor contents, so it does not state this mismatch.
- Parameter tensor construction, device placement, random shape initialisation, `requires_grad` flags and the conversion of the index lists to tensors (fit/tools/train.py:33-46, 58-59). These are library plumbing.
- Logging, `tqdm` and `writer.add_scalar` (fit/tools/train.py:75, 88, 92-96, 99). These are output only. The early-stop log line is reflected in the `stopped` flag of `Fit.Outcome`. The interval test `epoch % cfg.TRAIN.WRITE` (line 91) is modelled only for the error it raises on a zero interval.
- Floating-point rounding, overflow and NaN losses. Losses and `eps` are exact reals. The only IEEE behaviour kept is the NaN delta of the first call.
- The `index_select` of joints by the two index lists (fit/tools/train.py:78-79). This is a torch call inside the loss computation.
