/** Sums of real sequences, accumulated left to right as the C loops do. */
module RealSeq {

  /** `s[0] + s[1] + ... + s[|s|-1]`, added from the left. */
  function Sum(s: seq<real>): real
    decreases |s|
  {
    if |s| == 0 then 0.0 else Sum(s[..|s| - 1]) + s[|s| - 1]
  }

  /** Extending a prefix by one element adds that element. */
  lemma SumSnoc(s: seq<real>, i: nat)
    requires i < |s|
    ensures Sum(s[..i + 1]) == Sum(s[..i]) + s[i]
  {
    assert s[..i + 1][..i] == s[..i];
  }

  /** A sum of positive terms is positive and bounds each of its terms. */
  lemma {:induction false} SumPositive(s: seq<real>)
    requires |s| > 0
    requires forall i :: 0 <= i < |s| ==> s[i] > 0.0
    ensures Sum(s) > 0.0
    ensures forall i :: 0 <= i < |s| ==> s[i] <= Sum(s)
    decreases |s|
  {
    var init := s[..|s| - 1];
    if |init| > 0 {
      SumPositive(init);
      assert forall i :: 0 <= i < |init| ==> s[i] == init[i];
    }
  }

  /** Dividing every term by `d` divides the sum by `d`. */
  lemma {:induction false} SumDivide(s: seq<real>, d: real, q: seq<real>)
    requires d != 0.0
    requires |q| == |s|
    requires forall i :: 0 <= i < |s| ==> q[i] == s[i] / d
    ensures Sum(q) == Sum(s) / d
    decreases |s|
  {
    if |s| > 0 {
      var n := |s| - 1;
      SumDivide(s[..n], d, q[..n]);
      assert Sum(q) == Sum(s[..n]) / d + s[n] / d;
    }
  }

  /** Termwise difference: `Sum(a - b) == Sum(a) - Sum(b)`. */
  lemma {:induction false} SumSubtract(a: seq<real>, b: seq<real>, c: seq<real>)
    requires |a| == |b| == |c|
    requires forall i :: 0 <= i < |c| ==> c[i] == a[i] - b[i]
    ensures Sum(c) == Sum(a) - Sum(b)
    decreases |c|
  {
    if |c| > 0 {
      var n := |c| - 1;
      SumSubtract(a[..n], b[..n], c[..n]);
    }
  }

  /** A sequence whose every term is `v` sums to `|s| * v`. */
  lemma {:induction false} SumConstant(s: seq<real>, v: real)
    requires forall i :: 0 <= i < |s| ==> s[i] == v
    ensures Sum(s) == |s| as real * v
    decreases |s|
  {
    if |s| > 0 {
      SumConstant(s[..|s| - 1], v);
    }
  }

  /** A sequence that is zero except at one index sums to the value there. */
  lemma {:induction false} SumSingle(s: seq<real>, at: int)
    requires forall i :: 0 <= i < |s| && i != at ==> s[i] == 0.0
    ensures Sum(s) == if 0 <= at < |s| then s[at] else 0.0
    decreases |s|
  {
    if |s| > 0 {
      SumSingle(s[..|s| - 1], at);
    }
  }

  /** `q = a / b` with `0 < a <= b` lies in (0, 1]. */
  lemma RatioInUnit(q: real, a: real, b: real)
    requires 0.0 < a <= b && q == a / b
    ensures 0.0 < q <= 1.0
  {
    assert (a / b) * b == a;
  }

  lemma RatioLess(a: real, c: real, b: real)
    requires 0.0 < b && a < c
    ensures a / b < c / b
  {
    assert (c - a) / b > 0.0;
  }

  /** Each term of a positive sequence divided by the total. */
  function DivideBySum(e: seq<real>): (p: seq<real>)
    requires |e| > 0
    requires forall i :: 0 <= i < |e| ==> e[i] > 0.0
    ensures |p| == |e|
    ensures forall i :: 0 <= i < |p| ==> 0.0 < p[i] <= 1.0
    ensures Sum(p) == 1.0
  {
    SumPositive(e);
    var total := Sum(e);
    var p := seq(|e|, i requires 0 <= i < |e| => e[i] / total);
    DivideBySumFacts(e, total, p);
    p
  }

  /** Entry `i` of the normalised sequence is `e[i]` over the total. */
  lemma DivideBySumAt(e: seq<real>, i: nat)
    requires |e| > 0
    requires forall i :: 0 <= i < |e| ==> e[i] > 0.0
    requires i < |e|
    ensures Sum(e) > 0.0
    ensures DivideBySum(e)[i] == e[i] / Sum(e)
  {
    SumPositive(e);
  }

  lemma DivideBySumFacts(e: seq<real>, total: real, p: seq<real>)
    requires |e| > 0 && total == Sum(e)
    requires forall i :: 0 <= i < |e| ==> 0.0 < e[i] <= total
    requires |p| == |e| && forall i :: 0 <= i < |e| ==> p[i] == e[i] / total
    ensures forall i :: 0 <= i < |p| ==> 0.0 < p[i] <= 1.0
    ensures Sum(p) == 1.0
  {
    forall i | 0 <= i < |p| ensures 0.0 < p[i] <= 1.0 {
      RatioInUnit(p[i], e[i], total);
    }
    SumDivideTotal(e, total, p);
  }

  lemma SumDivideTotal(e: seq<real>, total: real, p: seq<real>)
    requires total == Sum(e) && total > 0.0
    requires |p| == |e| && forall i :: 0 <= i < |e| ==> p[i] == e[i] / total
    ensures Sum(p) == 1.0
  {
    SumDivide(e, total, p);
    DivideSelf(total);
  }

  lemma DivideSelf(t: real)
    requires t != 0.0
    ensures t / t == 1.0
  {
  }
}
