/** Online SGD for the softmax classifier: per example a forward pass, the
    stable softmax, the error `onehot - p` and the update
    `W[j*784 + k] += lr * error_j * x[k]`; one epoch is an in-order fold of
    that step over the dataset, and training runs five epochs. */
module Trainer {
  import opened Mnist
  import opened RealSeq
  import opened Classifier
  import opened StableSoftmax
  import opened Folds

  /** `1` for the true class, `0` otherwise; a label outside 0..9 matches no class. */
  function OneHot(j: int, target: int): real {
    if j == target then 1.0 else 0.0
  }

  /** Error of each class: its one-hot target minus its probability. */
  function ErrorSignal(p: seq<real>, target: int): (err: seq<real>)
    ensures |err| == |p|
  {
    seq(|p|, j requires 0 <= j < |p| => OneHot(j, target) - p[j])
  }

  /** The weight update over the flat vector: entry `i` belongs to class
      `ClassOf(i)` and pixel `PixelOf(i)`. */
  function Update(w: seq<real>, x: seq<real>, err: seq<real>): (r: seq<real>)
    requires ValidWeights(w) && |x| == ImageSize && |err| == NumClasses
    ensures ValidWeights(r)
  {
    seq(WeightCount, i requires 0 <= i < WeightCount =>
          w[i] + LearningRate * err[ClassOf(i)] * x[PixelOf(i)])
  }

  lemma UpdateWeight(w: seq<real>, x: seq<real>, err: seq<real>, j: nat, k: nat)
    requires ValidWeights(w) && |x| == ImageSize && |err| == NumClasses
    requires j < NumClasses && k < ImageSize
    ensures Weight(Update(w, x, err), j, k) == Weight(w, j, k) + LearningRate * err[j] * x[k]
  {
    FlatIndex(j, k);
  }

  /** Weight `W[j*784 + k]` moves by exactly `lr * err[j] * x[k]`, and every
      entry is such a `(j, k)` pair, so nothing else changes; a zero pixel
      leaves its whole column unchanged. */
  lemma UpdateWeights(w: seq<real>, x: seq<real>, err: seq<real>)
    requires ValidWeights(w) && |x| == ImageSize && |err| == NumClasses
    ensures forall j, k :: 0 <= j < NumClasses && 0 <= k < ImageSize ==>
              Weight(Update(w, x, err), j, k) == Weight(w, j, k) + LearningRate * err[j] * x[k]
    ensures forall j, k :: 0 <= j < NumClasses && 0 <= k < ImageSize && x[k] == 0.0 ==>
              Weight(Update(w, x, err), j, k) == Weight(w, j, k)
  {
    var r := Update(w, x, err);
    forall j, k | 0 <= j < NumClasses && 0 <= k < ImageSize
      ensures Weight(r, j, k) == Weight(w, j, k) + LearningRate * err[j] * x[k]
      ensures x[k] == 0.0 ==> Weight(r, j, k) == Weight(w, j, k)
    {
      UpdateWeight(w, x, err, j, k);
      ZeroProduct(LearningRate * err[j], x[k]);
    }
  }

  /** Every entry's error with the sign flipped. */
  function Negate(err: seq<real>): (r: seq<real>)
    ensures |r| == |err|
  {
    seq(|err|, j requires 0 <= j < |err| => -err[j])
  }

  /** The update is undone by the update with the negated error: it only adds
      `lr * err[j] * x[k]` and touches each weight once. */
  lemma UpdateInverse(w: seq<real>, x: seq<real>, err: seq<real>)
    requires ValidWeights(w) && |x| == ImageSize && |err| == NumClasses
    ensures Update(Update(w, x, err), x, Negate(err)) == w
  {
    var r1 := Update(w, x, err);
    var r2 := Update(r1, x, Negate(err));
    forall i | 0 <= i < WeightCount ensures r2[i] == w[i] {
      var c, k := ClassOf(i), PixelOf(i);
      AddThenSubtract(w[i], err[c], x[k]);
    }
  }

  lemma AddThenSubtract(v: real, e: real, p: real)
    ensures v + LearningRate * e * p + LearningRate * -e * p == v
  {
  }

  lemma ZeroProduct(a: real, b: real)
    ensures b == 0.0 ==> a * b == 0.0
  {
  }

  /** Class probabilities the step computes for pixels `x`. */
  function Probabilities(w: seq<real>, x: seq<real>, exp: real -> real): seq<real>
    requires ValidWeights(w) && |x| == ImageSize && ExpPositive(exp)
  {
    Softmax(Forward(w, x), exp)
  }

  /** One SGD step on example `ex`. */
  function Step(w: seq<real>, ex: Example, exp: real -> real): (r: seq<real>)
    requires ValidWeights(w) && |ex.pixels| == ImageSize && ExpPositive(exp)
    ensures ValidWeights(r)
  {
    Update(w, ex.pixels, ErrorSignal(Probabilities(w, ex.pixels, exp), ex.digit))
  }

  /** The step as a total function of weights and example, so that an epoch
      is a fold; on every fold the trainer runs the guard holds and it is `Step`. */
  ghost function StepFn(exp: real -> real): (seq<real>, Example) -> seq<real> {
    (v: seq<real>, ex: Example) =>
      if ValidWeights(v) && |ex.pixels| == ImageSize && ExpPositive(exp) then Step(v, ex, exp) else v
  }

  lemma StepFnIsStep(v: seq<real>, ex: Example, exp: real -> real)
    requires ValidWeights(v) && |ex.pixels| == ImageSize && ExpPositive(exp)
    ensures StepFn(exp)(v, ex) == Step(v, ex, exp)
  {
  }

  lemma StepFnKeepsValid(exp: real -> real)
    ensures forall v, ex :: ValidWeights(v) ==> ValidWeights(StepFn(exp)(v, ex))
  {
  }

  /** One epoch: the step applied to `ds[0], ds[1], ...` in order, each
      reading the weights the previous one left. */
  ghost function Epoch(w: seq<real>, ds: Dataset, exp: real -> real): (r: seq<real>)
    requires ValidWeights(w) && WellFormed(ds) && ExpPositive(exp)
    ensures ValidWeights(r)
  {
    StepFnKeepsValid(exp);
    FoldInvariant(w, ds, StepFn(exp), ValidWeights);
    FoldLeft(w, ds, StepFn(exp))
  }

  /** `e` epochs, each starting from the weights the previous one left. */
  ghost function EpochsFrom(w: seq<real>, ds: Dataset, e: nat, exp: real -> real): (r: seq<real>)
    requires ValidWeights(w) && WellFormed(ds) && ExpPositive(exp)
    ensures ValidWeights(r)
  {
    StepFnKeepsValid(exp);
    IterateInvariant(w, ds, e, StepFn(exp), ValidWeights);
    Iterate(w, ds, e, StepFn(exp))
  }

  /** One more epoch runs the epoch once more on the weights reached so far. */
  lemma EpochsFromNext(w: seq<real>, ds: Dataset, e: nat, exp: real -> real)
    requires ValidWeights(w) && WellFormed(ds) && ExpPositive(exp)
    ensures EpochsFrom(w, ds, e + 1, exp) == Epoch(EpochsFrom(w, ds, e, exp), ds, exp)
  {
  }

  /** `train_model`: five epochs over the dataset. */
  ghost function Train(w: seq<real>, ds: Dataset, exp: real -> real): (r: seq<real>)
    requires ValidWeights(w) && WellFormed(ds) && ExpPositive(exp)
    ensures ValidWeights(r)
  {
    EpochsFrom(w, ds, Epochs, exp)
  }

  /** An epoch over one more example runs one more step. */
  lemma EpochSnoc(w: seq<real>, ds: Dataset, i: nat, exp: real -> real)
    requires ValidWeights(w) && WellFormed(ds) && ExpPositive(exp) && i < |ds|
    ensures WellFormed(ds[..i]) && WellFormed(ds[..i + 1])
    ensures Epoch(w, ds[..i + 1], exp) == Step(Epoch(w, ds[..i], exp), ds[i], exp)
  {
    FoldSnoc(w, ds, i, StepFn(exp));
    StepFnIsStep(Epoch(w, ds[..i], exp), ds[i], exp);
  }

  /** The weight change of one step, entry by entry: class `j` and pixel `k`
      move by `lr * (onehot_j - p_j) * x[k]`; zero pixels leave their weights alone. */
  lemma StepChangesWeight(w: seq<real>, ex: Example, exp: real -> real, j: nat, k: nat)
    requires ValidWeights(w) && |ex.pixels| == ImageSize && ExpPositive(exp)
    requires j < NumClasses && k < ImageSize
    ensures var p := Probabilities(w, ex.pixels, exp);
            Weight(Step(w, ex, exp), j, k)
              == Weight(w, j, k) + 0.01 * (OneHot(j, ex.digit) - p[j]) * ex.pixels[k]
    ensures ex.pixels[k] == 0.0 ==> Weight(Step(w, ex, exp), j, k) == Weight(w, j, k)
  {
    UpdateWeight(w, ex.pixels, ErrorSignal(Probabilities(w, ex.pixels, exp), ex.digit), j, k);
  }

  /** The errors of one step sum to `1 - 1 = 0` when the label names a class,
      and to `-1` when it does not: the probabilities always sum to 1. */
  lemma ErrorSignalSum(p: seq<real>, target: int)
    requires Sum(p) == 1.0
    ensures Sum(ErrorSignal(p, target)) == if 0 <= target < |p| then 0.0 else -1.0
  {
    var onehot := seq(|p|, j requires 0 <= j < |p| => OneHot(j, target));
    SumSingle(onehot, target);
    SumSubtract(onehot, p, ErrorSignal(p, target));
  }

  /** Every copy of a well-formed dataset is well formed. */
  lemma WellFormedRepeat(ds: Dataset, e: nat)
    requires WellFormed(ds)
    ensures WellFormed(Repeat(ds, e))
  {
    var r := Repeat(ds, e);
    forall i | 0 <= i < |r| ensures |r[i].pixels| == ImageSize {
      assert r[i] in ds;
    }
  }

  /** Training is a single in-order fold of the step over the dataset
      written out `e` times: no shuffling, no reordering between epochs. */
  lemma EpochsAreOneFold(w: seq<real>, ds: Dataset, e: nat, exp: real -> real)
    requires ValidWeights(w) && WellFormed(ds) && ExpPositive(exp)
    ensures WellFormed(Repeat(ds, e))
    ensures EpochsFrom(w, ds, e, exp) == Epoch(w, Repeat(ds, e), exp)
  {
    WellFormedRepeat(ds, e);
    IterateIsOneFold(w, ds, e, StepFn(exp));
  }

  /** `train_model` as one fold over the dataset written out five times. */
  lemma TrainIsOneFold(w: seq<real>, ds: Dataset, exp: real -> real)
    requires ValidWeights(w) && WellFormed(ds) && ExpPositive(exp)
    ensures WellFormed(ds + ds + ds + ds + ds)
    ensures Train(w, ds, exp) == Epoch(w, ds + ds + ds + ds + ds, exp)
  {
    EpochsAreOneFold(w, ds, Epochs, exp);
    RepeatFive(ds);
  }

  /** From zero weights all logits are 0, so every probability is exactly 1/10,
      whatever `exp` is. */
  lemma UniformFromZero(x: seq<real>, exp: real -> real)
    requires |x| == ImageSize && ExpPositive(exp)
    ensures forall j :: 0 <= j < NumClasses ==> Probabilities(ZeroWeights(), x, exp)[j] == 0.1
  {
    var logits := Forward(ZeroWeights(), x);
    ZeroWeightsPredictZero(x);
    assert MaxScan(logits) == 0.0;
    var e := Shifted(logits, MaxScan(logits), exp);
    assert forall j :: 0 <= j < NumClasses ==> e[j] == exp(0.0);
    SumConstant(e, exp(0.0));
    TenthOf(exp(0.0));
    var p := Probabilities(ZeroWeights(), x, exp);
    assert p == DivideBySum(e);
    forall j | 0 <= j < NumClasses ensures p[j] == 0.1 {
      DivideBySumAt(e, j);
    }
  }

  /** The first step from zero weights: the true class row gains
      `0.01 * 0.9 * x[k]` and every other row `0.01 * -0.1 * x[k]`. */
  lemma FirstStepFromZero(x: seq<real>, target: int, exp: real -> real)
    requires |x| == ImageSize && 0 <= target < NumClasses && ExpPositive(exp)
    ensures var r := Step(ZeroWeights(), Example(x, target), exp);
            forall j, k :: 0 <= j < NumClasses && 0 <= k < ImageSize ==>
              Weight(r, j, k) == (if j == target then 0.01 * 0.9 * x[k] else 0.01 * -0.1 * x[k])
  {
    var w := ZeroWeights();
    UniformFromZero(x, exp);
    forall j, k | 0 <= j < NumClasses && 0 <= k < ImageSize
      ensures Weight(Step(w, Example(x, target), exp), j, k)
                == (if j == target then 0.01 * 0.9 * x[k] else 0.01 * -0.1 * x[k])
    {
      StepChangesWeight(w, Example(x, target), exp, j, k);
      UniformStepArithmetic(Probabilities(w, x, exp)[j], x[k]);
    }
  }

  lemma UniformStepArithmetic(q: real, v: real)
    requires q == 0.1
    ensures 0.01 * (1.0 - q) * v == 0.01 * 0.9 * v
    ensures 0.01 * (0.0 - q) * v == 0.01 * -0.1 * v
  {
  }

  lemma TenthOf(v: real)
    requires v > 0.0
    ensures v / (10.0 * v) == 0.1
  {
    assert 0.1 * (10.0 * v) == v;
  }

  /** The trainer's max loop: start at logit 0, keep any strictly larger logit. */
  method MaxLogit(logits: seq<real>) returns (m: real)
    requires |logits| > 0
    ensures m == MaxScan(logits)
    ensures exists j :: 0 <= j < |logits| && m == logits[j]
    ensures forall j :: 0 <= j < |logits| ==> logits[j] <= m
  {
    m := logits[0];
    var j := 1;
    while j < |logits|
      invariant 1 <= j <= |logits|
      invariant m == MaxPrefix(logits, j)
    {
      if logits[j] > m {
        m := logits[j];
      }
      j := j + 1;
    }
  }

  /** The exponential loop: each logit is overwritten by `exp(logit - max)`
      and the results are summed from class 0 upwards. */
  method ExpAndSum(logits: seq<real>, maxLogit: real, exp: real -> real)
    returns (probs: seq<real>, sumExp: real)
    ensures probs == Shifted(logits, maxLogit, exp)
    ensures sumExp == Sum(probs)
  {
    var e := Shifted(logits, maxLogit, exp);
    probs := logits;
    sumExp := 0.0;
    var j := 0;
    while j < |logits|
      invariant 0 <= j <= |logits| && |probs| == |logits|
      invariant forall t :: 0 <= t < j ==> probs[t] == e[t]
      invariant forall t :: j <= t < |logits| ==> probs[t] == logits[t]
      invariant sumExp == Sum(e[..j])
    {
      probs := probs[j := exp(probs[j] - maxLogit)];
      SumSnoc(e, j);
      sumExp := sumExp + probs[j];
      j := j + 1;
    }
    assert e[..|logits|] == e;
    assert probs == e;
  }

  /** The normalisation loop: every entry divided by the sum of all of them. */
  method NormalizeProbs(e: seq<real>, sumExp: real) returns (probs: seq<real>)
    requires |e| > 0 && forall t :: 0 <= t < |e| ==> e[t] > 0.0
    requires sumExp == Sum(e)
    ensures probs == DivideBySum(e)
    ensures Sum(probs) == 1.0
  {
    SumPositive(e);
    probs := e;
    var j := 0;
    while j < |e|
      invariant 0 <= j <= |e| && |probs| == |e|
      invariant forall t :: 0 <= t < j ==> probs[t] == e[t] / sumExp
      invariant forall t :: j <= t < |e| ==> probs[t] == e[t]
    {
      probs := probs[j := probs[j] / sumExp];
      j := j + 1;
    }
    forall t | 0 <= t < |e| ensures probs[t] == DivideBySum(e)[t] {
      DivideBySumAt(e, t);
    }
  }

  /** The update loops: row `j`, pixel `k`, `W[j*784 + k] += lr * err[j] * x[k]`,
      visited in flat index order. */
  method ApplyUpdate(w: seq<real>, x: seq<real>, err: seq<real>) returns (w': seq<real>)
    requires ValidWeights(w) && |x| == ImageSize && |err| == NumClasses
    ensures w' == Update(w, x, err)
  {
    w' := w;
    var j := 0;
    while j < NumClasses
      invariant 0 <= j <= NumClasses && |w'| == WeightCount
      invariant forall i :: 0 <= i < j * ImageSize ==>
                  w'[i] == w[i] + LearningRate * err[ClassOf(i)] * x[PixelOf(i)]
      invariant forall i :: j * ImageSize <= i < WeightCount ==> w'[i] == w[i]
    {
      var k := 0;
      while k < ImageSize
        invariant 0 <= k <= ImageSize && |w'| == WeightCount
        invariant forall i :: 0 <= i < j * ImageSize + k ==>
                    w'[i] == w[i] + LearningRate * err[ClassOf(i)] * x[PixelOf(i)]
        invariant forall i :: j * ImageSize + k <= i < WeightCount ==> w'[i] == w[i]
      {
        FlatIndex(j, k);
        var at := j * ImageSize + k;
        w' := w'[at := w'[at] + LearningRate * err[j] * x[k]];
        k := k + 1;
      }
      j := j + 1;
    }
    var r := Update(w, x, err);
    forall i | 0 <= i < WeightCount ensures w'[i] == r[i] {
    }
  }

  /** The C step: forward pass, running max, exponentials and their sum written
      over the logits, division by the sum, then the update row by row. */
  method SgdStep(w: seq<real>, ex: Example, exp: real -> real) returns (w': seq<real>)
    requires ValidWeights(w) && |ex.pixels| == ImageSize && ExpPositive(exp)
    ensures ValidWeights(w')
    ensures w' == Step(w, ex, exp)
  {
    var x := ex.pixels;
    var logits := ForwardPass(w, x);
    var maxLogit := MaxLogit(logits);
    var e, sumExp := ExpAndSum(logits, maxLogit, exp);
    var probs := NormalizeProbs(e, sumExp);
    assert probs == Probabilities(w, x, exp);
    w' := ApplyUpdate(w, x, ErrorSignal(probs, ex.digit));
  }

  /** One pass of the C example loop: every example in order, one step each. */
  method RunEpoch(w0: seq<real>, ds: Dataset, exp: real -> real) returns (w: seq<real>)
    requires ValidWeights(w0) && WellFormed(ds) && ExpPositive(exp)
    ensures ValidWeights(w)
    ensures w == Epoch(w0, ds, exp)
  {
    w := w0;
    var i := 0;
    while i < |ds|
      invariant 0 <= i <= |ds|
      invariant WellFormed(ds[..i])
      invariant w == Epoch(w0, ds[..i], exp)
    {
      EpochSnoc(w0, ds, i, exp);
      w := SgdStep(w, ds[i], exp);
      i := i + 1;
    }
    assert ds[..|ds|] == ds;
  }

  /** The C training loops: five epochs, each visiting the examples in order. */
  method TrainModel(ds: Dataset, w0: seq<real>, exp: real -> real) returns (w: seq<real>)
    requires WellFormed(ds) && ValidWeights(w0) && ExpPositive(exp)
    ensures ValidWeights(w)
    ensures w == Train(w0, ds, exp)
  {
    w := w0;
    var epoch := 0;
    while epoch < Epochs
      invariant 0 <= epoch <= Epochs
      invariant w == EpochsFrom(w0, ds, epoch, exp)
    {
      EpochsFromNext(w0, ds, epoch, exp);
      w := RunEpoch(w, ds, exp);
      epoch := epoch + 1;
    }
  }
}
