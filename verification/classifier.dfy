/** The linear classifier: a bias-free forward pass over the flat weight
    vector and an argmax that keeps the lowest index on ties. */
module Classifier {
  import opened Mnist
  import opened RealSeq

  /** `Σ_{k<m} W[j*784 + k] * x[k]`, accumulated for k = 0, 1, ... */
  function RowDot(w: seq<real>, x: seq<real>, j: nat, m: nat): real
    requires ValidWeights(w) && |x| == ImageSize
    requires j < NumClasses && m <= ImageSize
  {
    if m == 0 then 0.0 else RowDot(w, x, j, m - 1) + Weight(w, j, m - 1) * x[m - 1]
  }

  /** Logit of class `j`: the full dot product of row `j` with the pixels. */
  function Logit(w: seq<real>, x: seq<real>, j: nat): real
    requires ValidWeights(w) && |x| == ImageSize && j < NumClasses
  {
    RowDot(w, x, j, ImageSize)
  }

  /** Termwise products of row `j` with the pixels. */
  function Products(w: seq<real>, x: seq<real>, j: nat): (r: seq<real>)
    requires ValidWeights(w) && |x| == ImageSize && j < NumClasses
    ensures |r| == ImageSize
  {
    seq(ImageSize, k requires 0 <= k < ImageSize => Weight(w, j, k) * x[k])
  }

  /** The accumulation over the first `m` pixels is the sum of the first `m` products. */
  lemma {:induction false} RowDotIsSum(w: seq<real>, x: seq<real>, j: nat, m: nat)
    requires ValidWeights(w) && |x| == ImageSize && j < NumClasses && m <= ImageSize
    ensures RowDot(w, x, j, m) == Sum(Products(w, x, j)[..m])
  {
    if m > 0 {
      RowDotIsSum(w, x, j, m - 1);
      SumSnoc(Products(w, x, j), m - 1);
    }
  }

  /** Each logit is the dot product of its weight row with the image. */
  lemma LogitIsDotProduct(w: seq<real>, x: seq<real>, j: nat)
    requires ValidWeights(w) && |x| == ImageSize && j < NumClasses
    ensures Logit(w, x, j) == Sum(Products(w, x, j))
  {
    RowDotIsSum(w, x, j, ImageSize);
    assert Products(w, x, j)[..ImageSize] == Products(w, x, j);
  }

  /** The logit vector, one entry per class. */
  function Forward(w: seq<real>, x: seq<real>): (logits: seq<real>)
    requires ValidWeights(w) && |x| == ImageSize
    ensures |logits| == NumClasses
  {
    seq(NumClasses, j requires 0 <= j < NumClasses => Logit(w, x, j))
  }

  /** Every logit is the dot product of its row with the pixels. */
  lemma LogitsAreDotProducts(w: seq<real>, x: seq<real>)
    requires ValidWeights(w) && |x| == ImageSize
    ensures forall j :: 0 <= j < NumClasses ==> Forward(w, x)[j] == Sum(Products(w, x, j))
  {
    forall j | 0 <= j < NumClasses ensures Logit(w, x, j) == Sum(Products(w, x, j)) {
      LogitIsDotProduct(w, x, j);
    }
  }

  /** `c` is a maximal index of `s` and every earlier entry is strictly smaller,
      so `c` is the lowest index holding the maximum. */
  ghost predicate IsLowestArgMax(s: seq<real>, c: int) {
    && 0 <= c < |s|
    && (forall j :: 0 <= j < |s| ==> s[j] <= s[c])
    && (forall j :: 0 <= j < c ==> s[j] < s[c])
  }

  /** At most one index is the lowest argmax. */
  lemma LowestArgMaxUnique(s: seq<real>, c: int, d: int)
    requires IsLowestArgMax(s, c) && IsLowestArgMax(s, d)
    ensures c == d
  {
    assert s[d] <= s[c] && s[c] <= s[d];
  }

  /** Left-to-right scan over `s[..m]` that moves only on a strictly larger entry. */
  function ArgMaxPrefix(s: seq<real>, m: nat): (c: nat)
    requires 0 < m <= |s|
    ensures c < m
    ensures forall j :: 0 <= j < m ==> s[j] <= s[c]
    ensures forall j :: 0 <= j < c ==> s[j] < s[c]
  {
    if m == 1 then 0
    else
      var c := ArgMaxPrefix(s, m - 1);
      if s[m - 1] > s[c] then m - 1 else c
  }

  /** The scan over the whole sequence. */
  function ArgMax(s: seq<real>): (c: nat)
    requires |s| > 0
    ensures IsLowestArgMax(s, c)
  {
    ArgMaxPrefix(s, |s|)
  }

  /** The scan returns exactly the lowest argmax, whichever way it is described. */
  lemma ArgMaxCharacterized(s: seq<real>, c: int)
    requires |s| > 0
    ensures ArgMax(s) == c <==> IsLowestArgMax(s, c)
  {
    if IsLowestArgMax(s, c) {
      LowestArgMaxUnique(s, ArgMax(s), c);
    }
  }

  /** Two sequences whose entries compare alike have the same argmax. */
  lemma ArgMaxOrderInvariant(a: seq<real>, b: seq<real>)
    requires |a| == |b| > 0
    requires forall i, j :: 0 <= i < |a| && 0 <= j < |a| ==> (a[i] < a[j] <==> b[i] < b[j])
    ensures ArgMax(a) == ArgMax(b)
  {
    var c := ArgMax(a);
    assert IsLowestArgMax(b, c) by {
      forall j | 0 <= j < |b| ensures b[j] <= b[c] {
        assert !(a[c] < a[j]);
      }
    }
    ArgMaxCharacterized(b, c);
  }

  /** The C forward-pass loops: logits start at zero and row `j` accumulates
      `W[j*784 + k] * x[k]` for k = 0 .. 783. */
  method ForwardPass(w: seq<real>, x: seq<real>) returns (logits: seq<real>)
    requires ValidWeights(w) && |x| == ImageSize
    ensures |logits| == NumClasses
    ensures forall j :: 0 <= j < NumClasses ==> logits[j] == RowDot(w, x, j, ImageSize)
    ensures logits == Forward(w, x)
  {
    logits := seq(NumClasses, _ => 0.0);
    var j := 0;
    while j < NumClasses
      invariant 0 <= j <= NumClasses && |logits| == NumClasses
      invariant forall t :: 0 <= t < j ==> logits[t] == Logit(w, x, t)
      invariant forall t :: j <= t < NumClasses ==> logits[t] == 0.0
    {
      var k := 0;
      while k < ImageSize
        invariant 0 <= k <= ImageSize && |logits| == NumClasses
        invariant logits[j] == RowDot(w, x, j, k)
        invariant forall t :: 0 <= t < j ==> logits[t] == Logit(w, x, t)
        invariant forall t :: j < t < NumClasses ==> logits[t] == 0.0
      {
        logits := logits[j := logits[j] + Weight(w, j, k) * x[k]];
        k := k + 1;
      }
      j := j + 1;
    }
    assert logits == Forward(w, x);
  }

  /** `predict`: the class whose logit is largest, the lowest such class on ties. */
  method Predict(x: seq<real>, w: seq<real>) returns (c: int)
    requires ValidWeights(w) && |x| == ImageSize
    ensures 0 <= c < NumClasses
    ensures forall j :: 0 <= j < NumClasses ==> Logit(w, x, j) <= Logit(w, x, c)
    ensures forall j :: 0 <= j < c ==> Logit(w, x, j) < Logit(w, x, c)
    ensures c == ArgMax(Forward(w, x))
  {
    var logits := ForwardPass(w, x);
    c := 0;
    var j := 1;
    while j < NumClasses
      invariant 1 <= j <= NumClasses
      invariant c == ArgMaxPrefix(logits, j)
    {
      if logits[j] > logits[c] {
        c := j;
      }
      j := j + 1;
    }
  }

  /** Every row of the zero weights dots to zero. */
  lemma {:induction false} ZeroRowDot(x: seq<real>, j: nat, m: nat)
    requires |x| == ImageSize && j < NumClasses && m <= ImageSize
    ensures RowDot(ZeroWeights(), x, j, m) == 0.0
  {
    if m > 0 {
      ZeroRowDot(x, j, m - 1);
    }
  }

  /** With all-zero weights every logit is zero, so prediction picks class 0. */
  lemma ZeroWeightsPredictZero(x: seq<real>)
    requires |x| == ImageSize
    ensures forall j :: 0 <= j < NumClasses ==> Forward(ZeroWeights(), x)[j] == 0.0
    ensures ArgMax(Forward(ZeroWeights(), x)) == 0
  {
    forall j | 0 <= j < NumClasses ensures Forward(ZeroWeights(), x)[j] == 0.0 {
      ZeroRowDot(x, j, ImageSize);
    }
    assert IsLowestArgMax(Forward(ZeroWeights(), x), 0);
    ArgMaxCharacterized(Forward(ZeroWeights(), x), 0);
  }
}
