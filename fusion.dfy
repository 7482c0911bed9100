/** The Bayesian fusion of `PersonTracker.calculate_similarity`: two independent binary parents,
    Distance and Histogram, whose probability of being 1 is the distance and histogram score, and a
    child Similarity with a fixed conditional table. The query for Similarity with no evidence is
    computed here by exact marginalisation over real numbers. */
module Fusion {

  /** P(Similarity = s | Distance = distance, Histogram = histogram). The table's columns are
      ordered (D=0,H=0), (D=0,H=1), (D=1,H=0), (D=1,H=1); row 0 is [1, 0.5, 0.3, 0.2] and
      row 1 is [0, 0.5, 0.7, 0.8]. */
  function SimilarityTable(s: bool, distance: bool, histogram: bool): real
  {
    var column := (if distance then 2 else 0) + (if histogram then 1 else 0);
    if s then [0.0, 0.5, 0.7, 0.8][column] else [1.0, 0.5, 0.3, 0.2][column]
  }

  /** A parent's table `[[1 - p], [p]]`: the probability of state `v`. */
  function Prior(p: real, v: bool): real
  {
    if v then p else 1.0 - p
  }

  /** The joint probability of one assignment of the three variables. */
  function Joint(s: bool, d: real, h: real, dv: bool, hv: bool): real
  {
    Prior(d, dv) * Prior(h, hv) * SimilarityTable(s, dv, hv)
  }

  /** Unnormalised marginal of Similarity = s: the parents summed out. */
  function Marginal(s: bool, d: real, h: real): real
  {
    Joint(s, d, h, false, false) + Joint(s, d, h, false, true)
      + Joint(s, d, h, true, false) + Joint(s, d, h, true, true)
  }

  /** `calculate_similarity(d, h)`: the query's value for Similarity = 1, after the query's
      normalisation (which divides by one, since each column of the table sums to one). In closed
      form it is `0.5 (1-d) h + 0.7 d (1-h) + 0.8 d h`. */
  function Similarity(d: real, h: real): (p: real)
    ensures p == 0.5 * (1.0 - d) * h + 0.7 * d * (1.0 - h) + 0.8 * d * h
  {
    MarginalsSumToOne(d, h);
    Marginal(true, d, h) / (Marginal(true, d, h) + Marginal(false, d, h))
  }

  /** Each column of the table is a distribution over Similarity. */
  lemma TableColumnsSumToOne(dv: bool, hv: bool)
    ensures SimilarityTable(true, dv, hv) + SimilarityTable(false, dv, hv) == 1.0
    ensures 0.0 <= SimilarityTable(true, dv, hv) <= 1.0
  {
  }

  /** The marginals of the two states of Similarity add up to one for every d and h, so the
      query's normalisation does not change them. */
  lemma MarginalsSumToOne(d: real, h: real)
    ensures Marginal(true, d, h) + Marginal(false, d, h) == 1.0
  {
    var a, b := Prior(d, false), Prior(d, true);
    var c, e := Prior(h, false), Prior(h, true);
    assert Marginal(true, d, h) + Marginal(false, d, h) == a * c + a * e + b * c + b * e;
    assert a * c + a * e + b * c + b * e == (a + b) * (c + e);
  }

  /** At the corners, where both cues are certain, the fused value is the table entry itself:
      0 at (0,0), 0.5 at (0,1), 0.7 at (1,0) and 0.8 at (1,1). */
  lemma SimilarityCorners(dv: bool, hv: bool)
    ensures Similarity(if dv then 1.0 else 0.0, if hv then 1.0 else 0.0) == SimilarityTable(true, dv, hv)
  {
  }

  /** For cue probabilities in [0, 1] the fused value lies in [0, 0.8]. */
  lemma SimilarityRange(d: real, h: real)
    requires 0.0 <= d <= 1.0 && 0.0 <= h <= 1.0
    ensures 0.0 <= Similarity(d, h) <= 0.8
  {
    var p := Similarity(d, h);
    assert p == 0.5 * (1.0 - d) * h + 0.7 * d * (1.0 - h) + 0.8 * d * h;
    assert 0.8 - p == 0.8 * (1.0 - d) * (1.0 - h) + 0.3 * (1.0 - d) * h + 0.1 * d * (1.0 - h);
    NonNegativeProduct(1.0 - d, h);
    NonNegativeProduct(d, 1.0 - h);
    NonNegativeProduct(d, h);
    NonNegativeProduct(1.0 - d, 1.0 - h);
  }

  /** A distance score of at most 1, which `1 - dist / diagonal` always is, already bounds the
      fused value by 0.8, whatever the sign of the distance score. */
  lemma SimilarityAtMost(d: real, h: real)
    requires d <= 1.0 && 0.0 <= h <= 1.0
    ensures Similarity(d, h) <= 0.8
  {
    assert 0.8 - Similarity(d, h) == (1.0 - d) * (0.7 - 0.4 * h) + 0.1 * (1.0 - h);
    NonNegativeProduct(1.0 - d, 0.7 - 0.4 * h);
  }

  /** A distance score below -5/3, which the unclamped distance gives for a pair farther apart
      than the first image's diagonal allows, makes the fused value negative whatever the
      histogram score in [0, 1]; at h = 0 any negative distance score does. */
  lemma SimilarityCanBeNegative(d: real, h: real)
    requires 3.0 * d < -5.0 && 0.0 <= h <= 1.0
    ensures Similarity(d, h) < 0.0
    ensures Similarity(-1.0, 0.0) == -0.7
  {
    var e := -5.0 / 3.0 - d;
    assert Similarity(d, h) == 0.5 * h + d * (0.7 - 0.4 * h);
    assert d * (0.7 - 0.4 * h) == -5.0 / 3.0 * (0.7 - 0.4 * h) - e * (0.7 - 0.4 * h);
    PositiveProduct(e, 0.7 - 0.4 * h);
  }

  lemma NonNegativeProduct(a: real, b: real)
    requires 0.0 <= a && 0.0 <= b
    ensures 0.0 <= a * b
  {
  }

  /** Raising the distance score, with the histogram score fixed in [0, 1], raises the fused value. */
  lemma SimilarityIncreasesWithDistance(d1: real, d2: real, h: real)
    requires d1 < d2 && 0.0 <= h <= 1.0
    ensures Similarity(d1, h) < Similarity(d2, h)
  {
    assert Similarity(d2, h) - Similarity(d1, h) == (d2 - d1) * (0.7 - 0.4 * h);
    PositiveProduct(d2 - d1, 0.7 - 0.4 * h);
  }

  /** Raising the histogram score, with the distance score fixed in [0, 1], raises the fused value. */
  lemma SimilarityIncreasesWithHistogram(d: real, h1: real, h2: real)
    requires 0.0 <= d <= 1.0 && h1 < h2
    ensures Similarity(d, h1) < Similarity(d, h2)
  {
    assert Similarity(d, h2) - Similarity(d, h1) == (h2 - h1) * (0.5 - 0.4 * d);
    PositiveProduct(h2 - h1, 0.5 - 0.4 * d);
  }

  lemma PositiveProduct(a: real, b: real)
    requires 0.0 < a && 0.0 < b
    ensures 0.0 < a * b
  {
  }

  /** The table favours distance: a certainty of closeness alone weighs more than the same
      certainty of likeness alone. */
  lemma DistanceOutweighsHistogram(t: real)
    requires 0.0 < t
    ensures Similarity(0.0, t) < Similarity(t, 0.0)
  {
  }
}
