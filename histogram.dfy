/** Histogram intersection, as `PersonTracker.compute_histogram_similarity` computes it: both
    histograms are divided by their totals and the element-wise minima are summed. */
module Histogram {

  /** `cv2.calcHist` is asked for 256 buckets of grey level. */
  const Bins := 256

  /** `np.sum`. */
  function Sum(s: seq<real>): real
  {
    if s == [] then 0.0 else s[0] + Sum(s[1..])
  }

  predicate NonNegative(s: seq<real>)
  {
    forall i :: 0 <= i < |s| ==> 0.0 <= s[i]
  }

  /** A histogram of one crop: 256 non-negative counts, not all zero (an empty crop would make
      the normalisation divide by zero). */
  predicate Valid(h: seq<real>)
  {
    |h| == Bins && NonNegative(h) && Sum(h) > 0.0
  }

  /** Every element divided by `d`. */
  function Divide(s: seq<real>, d: real): (r: seq<real>)
    requires d != 0.0
    ensures |r| == |s|
    ensures forall i :: 0 <= i < |s| ==> r[i] == s[i] / d
  {
    if s == [] then [] else [s[0] / d] + Divide(s[1..], d)
  }

  /** `hist / np.sum(hist)`: a distribution whose buckets sum to one. */
  function Normalize(h: seq<real>): (p: seq<real>)
    requires NonNegative(h) && Sum(h) > 0.0
    ensures |p| == |h| && NonNegative(p) && Sum(p) == 1.0
    ensures forall i :: 0 <= i < |h| ==> p[i] == h[i] / Sum(h)
  {
    SumDivide(h, Sum(h));
    assert Sum(h) / Sum(h) == 1.0;
    Divide(h, Sum(h))
  }

  function Min(a: real, b: real): real
  {
    if a <= b then a else b
  }

  /** `np.minimum`, for sequences of equal length. */
  function PairwiseMin(a: seq<real>, b: seq<real>): (m: seq<real>)
    requires |a| == |b|
    ensures |m| == |a|
    ensures forall i :: 0 <= i < |a| ==> m[i] == Min(a[i], b[i])
  {
    if a == [] then [] else [Min(a[0], b[0])] + PairwiseMin(a[1..], b[1..])
  }

  /** `compute_histogram_similarity(h1, h2)`: lies between 0 and 1. */
  function Intersection(h1: seq<real>, h2: seq<real>): (sim: real)
    requires |h1| == |h2|
    requires NonNegative(h1) && Sum(h1) > 0.0
    requires NonNegative(h2) && Sum(h2) > 0.0
    ensures 0.0 <= sim <= 1.0
  {
    var p, q := Normalize(h1), Normalize(h2);
    var m := PairwiseMin(p, q);
    SumNonNegative(m);
    SumMonotone(m, p);
    Sum(m)
  }

  lemma {:induction false} SumDivide(s: seq<real>, d: real)
    requires d != 0.0
    ensures Sum(Divide(s, d)) == Sum(s) / d
  {
    if s != [] {
      var r := Divide(s, d);
      assert r[1..] == Divide(s[1..], d);
      SumDivide(s[1..], d);
      assert Sum(r) == s[0] / d + Sum(s[1..]) / d;
      DivideAdd(s[0], Sum(s[1..]), d);
    }
  }

  lemma DivideAdd(x: real, y: real, d: real)
    requires d != 0.0
    ensures x / d + y / d == (x + y) / d
  {
  }

  lemma {:induction false} SumNonNegative(s: seq<real>)
    requires NonNegative(s)
    ensures Sum(s) >= 0.0
  {
    if s != [] {
      SumNonNegative(s[1..]);
    }
  }

  /** Summing is monotone in each bucket. */
  lemma {:induction false} SumMonotone(a: seq<real>, b: seq<real>)
    requires |a| == |b|
    requires forall i :: 0 <= i < |a| ==> a[i] <= b[i]
    ensures Sum(a) <= Sum(b)
  {
    if a != [] {
      SumMonotone(a[1..], b[1..]);
    }
  }

  /** Bucket-wise below and equal in total means equal. */
  lemma {:induction false} SumTight(a: seq<real>, b: seq<real>)
    requires |a| == |b|
    requires forall i :: 0 <= i < |a| ==> a[i] <= b[i]
    requires Sum(a) == Sum(b)
    ensures a == b
  {
    if a != [] {
      SumMonotone(a[1..], b[1..]);
      SumTight(a[1..], b[1..]);
      assert a == [a[0]] + a[1..];
      assert b == [b[0]] + b[1..];
    }
  }

  /** The similarity does not depend on the order of its arguments. */
  lemma IntersectionSymmetric(h1: seq<real>, h2: seq<real>)
    requires |h1| == |h2|
    requires NonNegative(h1) && Sum(h1) > 0.0
    requires NonNegative(h2) && Sum(h2) > 0.0
    ensures Intersection(h1, h2) == Intersection(h2, h1)
  {
    var p, q := Normalize(h1), Normalize(h2);
    assert PairwiseMin(p, q) == PairwiseMin(q, p);
  }

  /** A histogram compared with itself scores exactly one. */
  lemma IntersectionSelf(h: seq<real>)
    requires NonNegative(h) && Sum(h) > 0.0
    ensures Intersection(h, h) == 1.0
  {
    var p := Normalize(h);
    assert PairwiseMin(p, p) == p;
  }

  /** The similarity is one exactly when the two normalised histograms coincide. */
  lemma IntersectionIsOneIff(h1: seq<real>, h2: seq<real>)
    requires |h1| == |h2|
    requires NonNegative(h1) && Sum(h1) > 0.0
    requires NonNegative(h2) && Sum(h2) > 0.0
    ensures Intersection(h1, h2) == 1.0 <==> Normalize(h1) == Normalize(h2)
  {
    var p, q := Normalize(h1), Normalize(h2);
    var m := PairwiseMin(p, q);
    if Intersection(h1, h2) == 1.0 {
      SumTight(m, p);
      SumTight(m, q);
    }
    if p == q {
      IntersectionSelf(h1);
      assert PairwiseMin(p, q) == PairwiseMin(p, p);
    }
  }
}
