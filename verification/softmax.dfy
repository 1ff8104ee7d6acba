/** The numerically stable softmax of the trainer: subtract the running
    maximum, exponentiate, divide by the sum. `exp` is a parameter: only its
    positivity (and, for one lemma, its monotonicity) is assumed. */
module StableSoftmax {
  import opened RealSeq
  import opened Classifier

  ghost predicate ExpPositive(exp: real -> real) {
    forall t :: exp(t) > 0.0
  }

  ghost predicate ExpIncreasing(exp: real -> real) {
    forall a, b :: a < b ==> exp(a) < exp(b)
  }

  /** Running maximum over `s[..m]`, starting from `s[0]` and replaced only by
      a strictly larger entry. */
  function MaxPrefix(s: seq<real>, m: nat): (v: real)
    requires 0 < m <= |s|
    ensures exists j :: 0 <= j < m && v == s[j]
    ensures forall j :: 0 <= j < m ==> s[j] <= v
  {
    if m == 1 then s[0]
    else
      var v := MaxPrefix(s, m - 1);
      if s[m - 1] > v then s[m - 1] else v
  }

  /** The maximum logit the trainer subtracts before exponentiating. */
  function MaxScan(s: seq<real>): (v: real)
    requires |s| > 0
    ensures exists j :: 0 <= j < |s| && v == s[j]
    ensures forall j :: 0 <= j < |s| ==> s[j] <= v
  {
    MaxPrefix(s, |s|)
  }

  /** The value scan of the trainer and the index scan of `predict` agree. */
  lemma MaxScanIsArgMaxValue(s: seq<real>)
    requires |s| > 0
    ensures MaxScan(s) == s[ArgMax(s)]
  {
    var j :| 0 <= j < |s| && MaxScan(s) == s[j];
    assert s[j] <= s[ArgMax(s)];
  }

  /** `exp(s[j] - m)` for every entry. */
  function Shifted(s: seq<real>, m: real, exp: real -> real): seq<real> {
    seq(|s|, j requires 0 <= j < |s| => exp(s[j] - m))
  }

  /** Probabilities: each shifted exponential divided by their sum. */
  function Softmax(s: seq<real>, exp: real -> real): (p: seq<real>)
    requires |s| > 0 && ExpPositive(exp)
    ensures |p| == |s|
    ensures forall j :: 0 <= j < |p| ==> 0.0 < p[j] <= 1.0
    ensures Sum(p) == 1.0
  {
    DivideBySum(Shifted(s, MaxScan(s), exp))
  }

  /** Adding `c` to every logit moves the running maximum by `c`. */
  lemma {:induction false} MaxPrefixShift(s: seq<real>, c: real, t: seq<real>, m: nat)
    requires |t| == |s| && 0 < m <= |s|
    requires forall j :: 0 <= j < |s| ==> t[j] == s[j] + c
    ensures MaxPrefix(t, m) == MaxPrefix(s, m) + c
  {
    if m > 1 {
      MaxPrefixShift(s, c, t, m - 1);
    }
  }

  /** Translation invariance, exactly and for any `exp`: the maximum is
      subtracted first, so adding `c` to every logit leaves the probabilities
      unchanged. */
  lemma SoftmaxShiftInvariant(s: seq<real>, c: real, exp: real -> real)
    requires |s| > 0 && ExpPositive(exp)
    ensures Softmax(seq(|s|, j requires 0 <= j < |s| => s[j] + c), exp) == Softmax(s, exp)
  {
    var t := seq(|s|, j requires 0 <= j < |s| => s[j] + c);
    var m := MaxScan(s);
    MaxPrefixShift(s, c, t, |s|);
    var et, es := Shifted(t, MaxScan(t), exp), Shifted(s, m, exp);
    forall j | 0 <= j < |s| ensures et[j] == es[j] {
      assert t[j] - (m + c) == s[j] - m;
    }
    assert et == es;
  }

  /** With an increasing `exp`, probabilities compare exactly as the logits do,
      so the argmax of the probabilities is the argmax of the logits. */
  lemma SoftmaxPreservesArgMax(s: seq<real>, exp: real -> real)
    requires |s| > 0 && ExpPositive(exp) && ExpIncreasing(exp)
    ensures ArgMax(Softmax(s, exp)) == ArgMax(s)
  {
    var p := Softmax(s, exp);
    var e := Shifted(s, MaxScan(s), exp);
    var total := Sum(e);
    SumPositive(e);
    forall i, j | 0 <= i < |s| && 0 <= j < |s|
      ensures s[i] < s[j] <==> p[i] < p[j]
    {
      assert p[i] == e[i] / total && p[j] == e[j] / total;
      if s[i] < s[j] {
        assert e[i] < e[j];
        RatioLess(e[i], e[j], total);
      } else if s[j] < s[i] {
        assert e[j] < e[i];
        RatioLess(e[j], e[i], total);
      } else {
        assert e[i] == e[j];
      }
    }
    ArgMaxOrderInvariant(p, s);
  }
}
