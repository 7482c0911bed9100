/** The loop of `PersonTracker.frames_following`: for every image, in file order, the detections
    of the image are scored against every detection of the previous image. Image loading and
    feature extraction are parameters: `shapeOf` gives the shape of the image loaded for a name,
    `histogramOf` the grey-level histogram of the crop of a bbox in that image, and `distance`
    stands for `compute_distance_probability`. */
module Tracking {
  import opened Wrappers
  import opened Geometry
  import opened Loader
  import Histogram
  import Fusion

  /** The first two entries of `image.shape`: rows and columns. */
  datatype Shape = Shape(height: int, width: int)

  /** `actual_object_data`: the center of one bbox and the histogram of its crop. */
  datatype Detection = Detection(center: Point, histogram: seq<real>)

  /** Every bbox of the record has four coordinates and a usable histogram. */
  predicate MeasurableRecord(r: Record, histogramOf: (string, seq<int>) -> seq<real>)
  {
    forall k :: 0 <= k < |r.boxes| ==>
      |r.boxes[k]| == 4 && Histogram.Valid(histogramOf(r.imageName, r.boxes[k]))
  }

  predicate Measurable(records: seq<Record>, histogramOf: (string, seq<int>) -> seq<real>)
  {
    forall t :: 0 <= t < |records| ==> MeasurableRecord(records[t], histogramOf)
  }

  predicate ValidDetections(ds: seq<Detection>)
  {
    forall i :: 0 <= i < |ds| ==> Histogram.Valid(ds[i].histogram)
  }

  /** The detections of one image, in bbox order. */
  function DetectionsOf(r: Record, histogramOf: (string, seq<int>) -> seq<real>): (ds: seq<Detection>)
    requires MeasurableRecord(r, histogramOf)
    ensures |ds| == |r.boxes| && ValidDetections(ds)
    ensures forall k :: 0 <= k < |ds| ==>
      Center(r.boxes[k]) == Some(ds[k].center) && ds[k].histogram == histogramOf(r.imageName, r.boxes[k])
  {
    seq(|r.boxes|, k requires 0 <= k < |r.boxes| =>
      Detection(Center(r.boxes[k]).value, histogramOf(r.imageName, r.boxes[k])))
  }

  /** The probability printed for one current detection against one previous detection. */
  function Score(distance: (Shape, Point, Point) -> real, shape: Shape, actual: Detection, before: Detection): real
    requires Histogram.Valid(actual.histogram) && Histogram.Valid(before.histogram)
  {
    Fusion.Similarity(distance(shape, actual.center, before.center),
                      Histogram.Intersection(actual.histogram, before.histogram))
  }

  /** The scores of one current detection against the previous image's detections, in order. */
  function RowScores(distance: (Shape, Point, Point) -> real, shape: Shape, actual: Detection,
                     before: seq<Detection>): (row: seq<real>)
    requires Histogram.Valid(actual.histogram) && ValidDetections(before)
    ensures |row| == |before|
    ensures forall i :: 0 <= i < |before| ==> row[i] == Score(distance, shape, actual, before[i])
  {
    seq(|before|, i requires 0 <= i < |before| => Score(distance, shape, actual, before[i]))
  }

  /** The scores of one image against the previous one: row after row, one row per current
      detection. */
  function FrameScores(distance: (Shape, Point, Point) -> real, shape: Shape, before: seq<Detection>,
                       actual: seq<Detection>): seq<real>
    requires ValidDetections(before) && ValidDetections(actual)
  {
    if actual == [] then []
    else
      FrameScores(distance, shape, before, actual[..|actual| - 1])
        + RowScores(distance, shape, actual[|actual| - 1], before)
  }

  /** The scores printed for the first `t` images of a run: every image after the first against
      its predecessor. */
  function RunScores(distance: (Shape, Point, Point) -> real, shape: Shape,
                     histogramOf: (string, seq<int>) -> seq<real>, records: seq<Record>, t: nat): seq<real>
    requires Measurable(records, histogramOf) && t <= |records|
  {
    if t <= 1 then []
    else
      RunScores(distance, shape, histogramOf, records, t - 1)
        + FrameScores(distance, shape, DetectionsOf(records[t - 2], histogramOf),
                      DetectionsOf(records[t - 1], histogramOf))
  }

  /** The entry of `frames_numbers` for image `t`: a -1 per bbox for the first image, which has no
      predecessor, and nothing for every later image. */
  function Marks(records: seq<Record>, t: nat): seq<int>
    requires t < |records|
  {
    if t == 0 then seq(|records[0].boxes|, _ => -1) else []
  }

  /** The innermost loop of `frames_following`: one current detection against each detection of
      the previous image, in order. */
  method ScoreAgainst(distance: (Shape, Point, Point) -> real, imageShape: Shape,
                      actualObjectData: Detection, before: seq<Detection>)
    returns (probabilities: seq<real>)
    requires Histogram.Valid(actualObjectData.histogram) && ValidDetections(before)
    ensures |probabilities| == |before|
    ensures forall i :: 0 <= i < |before| ==>
      probabilities[i] == Score(distance, imageShape, actualObjectData, before[i])
  {
    probabilities := [];
    for i := 0 to |before|
      invariant |probabilities| == i
      invariant forall j :: 0 <= j < i ==>
        probabilities[j] == Score(distance, imageShape, actualObjectData, before[j])
    {
      var distanceProbability := distance(imageShape, actualObjectData.center, before[i].center);
      var compareHistograms := Histogram.Intersection(actualObjectData.histogram, before[i].histogram);
      var probability := Fusion.Similarity(distanceProbability, compareHistograms);
      probabilities := probabilities + [probability];
    }
  }

  /** The body of `frames_following` for one image: its detections, its `frames_numbers` entry
      (a -1 per bbox when there is no previous image) and the probabilities it prints. */
  method FollowFrame(distance: (Shape, Point, Point) -> real, imageShape: Shape,
                     histogramOf: (string, seq<int>) -> seq<real>, row: Record,
                     beforeFrame: Option<seq<Detection>>)
    returns (imageFramesNumbers: seq<int>, actualFrameData: seq<Detection>, probabilities: seq<real>)
    requires MeasurableRecord(row, histogramOf)
    requires beforeFrame.Some? ==> ValidDetections(beforeFrame.value)
    ensures actualFrameData == DetectionsOf(row, histogramOf)
    ensures imageFramesNumbers == if beforeFrame.None? then seq(|row.boxes|, _ => -1) else []
    ensures probabilities == if beforeFrame.None? then [] else
      FrameScores(distance, imageShape, beforeFrame.value, actualFrameData)
  {
    imageFramesNumbers, actualFrameData, probabilities := [], [], [];
    for k := 0 to |row.boxes|
      invariant FollowedBoxes(distance, imageShape, histogramOf, row, beforeFrame, k,
                              imageFramesNumbers, actualFrameData, probabilities)
    {
      var bbox := row.boxes[k];
      var actualObjectData := Detection(Center(bbox).value, histogramOf(row.imageName, bbox));
      ghost var scoresBefore := probabilities;
      if beforeFrame != None {
        var scores := ScoreAgainst(distance, imageShape, actualObjectData, beforeFrame.value);
        probabilities := probabilities + scores;
      }
      ghost var marksBefore := imageFramesNumbers;
      if beforeFrame == None {
        imageFramesNumbers := imageFramesNumbers + [-1];
      }
      FollowedBoxesStep(distance, imageShape, histogramOf, row, beforeFrame, k,
                        marksBefore, actualFrameData, scoresBefore, probabilities);
      actualFrameData := actualFrameData + [actualObjectData];
    }
    assert DetectionsOf(row, histogramOf)[..|row.boxes|] == DetectionsOf(row, histogramOf);
  }

  /** The state of the bbox loop of `frames_following` after the first `k` bboxes of `row`. */
  predicate FollowedBoxes(distance: (Shape, Point, Point) -> real, imageShape: Shape,
                          histogramOf: (string, seq<int>) -> seq<real>, row: Record,
                          beforeFrame: Option<seq<Detection>>, k: nat,
                          imageFramesNumbers: seq<int>, actualFrameData: seq<Detection>, probabilities: seq<real>)
    requires MeasurableRecord(row, histogramOf) && k <= |row.boxes|
    requires beforeFrame.Some? ==> ValidDetections(beforeFrame.value)
  {
    && actualFrameData == DetectionsOf(row, histogramOf)[..k]
    && imageFramesNumbers == (if beforeFrame.None? then seq(k, _ => -1) else [])
    && probabilities == if beforeFrame.None? then [] else
      FrameScores(distance, imageShape, beforeFrame.value, DetectionsOf(row, histogramOf)[..k])
  }

  /** One pass of the bbox loop moves the state from `k` bboxes to `k + 1`. */
  lemma FollowedBoxesStep(distance: (Shape, Point, Point) -> real, imageShape: Shape,
                          histogramOf: (string, seq<int>) -> seq<real>, row: Record,
                          beforeFrame: Option<seq<Detection>>, k: nat,
                          imageFramesNumbers: seq<int>, actualFrameData: seq<Detection>,
                          probabilities: seq<real>, newProbabilities: seq<real>)
    requires MeasurableRecord(row, histogramOf) && k < |row.boxes|
    requires beforeFrame.Some? ==> ValidDetections(beforeFrame.value)
    requires FollowedBoxes(distance, imageShape, histogramOf, row, beforeFrame, k,
                           imageFramesNumbers, actualFrameData, probabilities)
    requires var actual := Detection(Center(row.boxes[k]).value, histogramOf(row.imageName, row.boxes[k]));
      newProbabilities == if beforeFrame.None? then probabilities else
        probabilities + RowScores(distance, imageShape, actual, beforeFrame.value)
    ensures var actual := Detection(Center(row.boxes[k]).value, histogramOf(row.imageName, row.boxes[k]));
      FollowedBoxes(distance, imageShape, histogramOf, row, beforeFrame, k + 1,
                    imageFramesNumbers + (if beforeFrame.None? then [-1] else []),
                    actualFrameData + [actual], newProbabilities)
  {
    DetectionsStep(row, histogramOf, k);
    if beforeFrame.Some? {
      FrameScoresStep(distance, imageShape, beforeFrame.value, DetectionsOf(row, histogramOf), k);
    } else {
      MarksStep(k);
    }
  }

  lemma DetectionsStep(row: Record, histogramOf: (string, seq<int>) -> seq<real>, k: nat)
    requires MeasurableRecord(row, histogramOf) && k < |row.boxes|
    ensures DetectionsOf(row, histogramOf)[..k + 1] == DetectionsOf(row, histogramOf)[..k]
      + [Detection(Center(row.boxes[k]).value, histogramOf(row.imageName, row.boxes[k]))]
  {
    var detections := DetectionsOf(row, histogramOf);
    assert detections[..k + 1] == detections[..k] + [detections[k]];
  }

  lemma MarksStep(k: nat)
    ensures seq(k, _ => -1) + [-1] == seq(k + 1, _ => -1)
  {
  }

  /** `frames_following(df)`: returns `frames_numbers`, the probabilities in the order they are
      printed, and the final `image_shape` and `before_frame_data`. */
  method FramesFollowing(records: seq<Record>, shapeOf: string -> Shape,
                         histogramOf: (string, seq<int>) -> seq<real>,
                         distance: (Shape, Point, Point) -> real)
    returns (framesNumbers: seq<seq<int>>, scores: seq<real>,
             imageShape: Option<Shape>, beforeFrame: Option<seq<Detection>>)
    requires Measurable(records, histogramOf)
    ensures |framesNumbers| == |records|
    ensures forall t :: 0 <= t < |records| ==> framesNumbers[t] == Marks(records, t)
    ensures records == [] ==> scores == [] && imageShape == None && beforeFrame == None
    ensures records != [] ==>
      && scores == RunScores(distance, shapeOf(records[0].imageName), histogramOf, records, |records|)
      && imageShape == Some(shapeOf(records[0].imageName))
      && beforeFrame == Some(DetectionsOf(records[|records| - 1], histogramOf))
  {
    framesNumbers, scores, imageShape, beforeFrame := [], [], None, None;
    for t := 0 to |records|
      invariant Followed(records, shapeOf, histogramOf, distance, t, framesNumbers, scores, imageShape, beforeFrame)
    {
      var row := records[t];
      if imageShape == None {
        imageShape := Some(shapeOf(row.imageName));
      }
      var imageFramesNumbers, actualFrameData, probabilities :=
        FollowFrame(distance, imageShape.value, histogramOf, row, beforeFrame);
      FollowedStep(records, shapeOf, histogramOf, distance, t, framesNumbers, scores, beforeFrame,
                   imageFramesNumbers, actualFrameData, probabilities);
      scores := scores + probabilities;
      framesNumbers := framesNumbers + [imageFramesNumbers];
      beforeFrame := Some(actualFrameData);
    }
  }

  /** The state of `frames_following` after its first `t` images. */
  predicate Followed(records: seq<Record>, shapeOf: string -> Shape,
                     histogramOf: (string, seq<int>) -> seq<real>, distance: (Shape, Point, Point) -> real,
                     t: nat, framesNumbers: seq<seq<int>>, scores: seq<real>,
                     imageShape: Option<Shape>, beforeFrame: Option<seq<Detection>>)
    requires Measurable(records, histogramOf) && t <= |records|
  {
    && |framesNumbers| == t
    && (forall u :: 0 <= u < t ==> framesNumbers[u] == Marks(records, u))
    && (t == 0 ==> imageShape == None && beforeFrame == None && scores == [])
    && (t > 0 ==>
      && imageShape == Some(shapeOf(records[0].imageName))
      && beforeFrame == Some(DetectionsOf(records[t - 1], histogramOf))
      && scores == RunScores(distance, shapeOf(records[0].imageName), histogramOf, records, t))
  }

  /** One pass of the loop of `frames_following` moves the state from `t` images to `t + 1`. */
  lemma FollowedStep(records: seq<Record>, shapeOf: string -> Shape,
                     histogramOf: (string, seq<int>) -> seq<real>, distance: (Shape, Point, Point) -> real,
                     t: nat, framesNumbers: seq<seq<int>>, scores: seq<real>,
                     beforeFrame: Option<seq<Detection>>,
                     imageFramesNumbers: seq<int>, actualFrameData: seq<Detection>, probabilities: seq<real>)
    requires Measurable(records, histogramOf) && t < |records|
    requires Followed(records, shapeOf, histogramOf, distance, t, framesNumbers, scores,
                      if t == 0 then None else Some(shapeOf(records[0].imageName)), beforeFrame)
    requires actualFrameData == DetectionsOf(records[t], histogramOf)
    requires imageFramesNumbers == if beforeFrame.None? then seq(|records[t].boxes|, _ => -1) else []
    requires probabilities == if beforeFrame.None? then [] else
      FrameScores(distance, shapeOf(records[0].imageName), beforeFrame.value, actualFrameData)
    ensures Followed(records, shapeOf, histogramOf, distance, t + 1, framesNumbers + [imageFramesNumbers],
                     scores + probabilities, Some(shapeOf(records[0].imageName)), Some(actualFrameData))
  {
  }

  /** One more current detection adds its row of scores at the end. */
  lemma FrameScoresStep(distance: (Shape, Point, Point) -> real, shape: Shape, before: seq<Detection>,
                        actual: seq<Detection>, k: nat)
    requires ValidDetections(before) && ValidDetections(actual) && k < |actual|
    ensures FrameScores(distance, shape, before, actual[..k + 1])
      == FrameScores(distance, shape, before, actual[..k]) + RowScores(distance, shape, actual[k], before)
  {
    assert actual[..k + 1][..k] == actual[..k];
  }

  /** The number of printed probabilities expected for a run: for each image after the first, its
      bbox count times the previous image's bbox count. */
  function PairCount(records: seq<Record>, t: nat): nat
    requires t <= |records|
  {
    if t <= 1 then 0
    else PairCount(records, t - 1) + |records[t - 2].boxes| * |records[t - 1].boxes|
  }

  /** An image contributes exactly one score per (current, previous) pair. */
  lemma {:induction false} FrameScoresLength(distance: (Shape, Point, Point) -> real, shape: Shape,
                                             before: seq<Detection>, actual: seq<Detection>)
    requires ValidDetections(before) && ValidDetections(actual)
    ensures |FrameScores(distance, shape, before, actual)| == |actual| * |before|
    decreases |actual|
  {
    if actual != [] {
      var m := |actual| - 1;
      FrameScoresLength(distance, shape, before, actual[..m]);
      assert |FrameScores(distance, shape, before, actual)| == m * |before| + |before|;
    }
  }

  /** The score of current detection `j` against previous detection `i` is printed at position
      `j * |before| + i`: current detections in bbox order, each against the previous image's
      detections in order. */
  lemma FrameScoresAt(distance: (Shape, Point, Point) -> real, shape: Shape,
                      before: seq<Detection>, actual: seq<Detection>, j: nat, i: nat)
    requires ValidDetections(before) && ValidDetections(actual)
    requires j < |actual| && i < |before|
    ensures j * |before| + i < |FrameScores(distance, shape, before, actual)|
    ensures FrameScores(distance, shape, before, actual)[j * |before| + i]
      == Score(distance, shape, actual[j], before[i])
  {
    var rows := Rows(distance, shape, before, actual);
    FrameScoresConcat(distance, shape, before, actual);
    ConcatAt(rows, |before|, j, i);
    assert rows[j] == RowScores(distance, shape, actual[j], before);
  }

  /** The rows of one image's scores, one per current detection. */
  function Rows(distance: (Shape, Point, Point) -> real, shape: Shape, before: seq<Detection>,
                actual: seq<Detection>): (rows: seq<seq<real>>)
    requires ValidDetections(before) && ValidDetections(actual)
    ensures |rows| == |actual|
    ensures forall j :: 0 <= j < |actual| ==> |rows[j]| == |before|
  {
    seq(|actual|, j requires 0 <= j < |actual| => RowScores(distance, shape, actual[j], before))
  }

  /** Rows written one after the other. */
  function Concat(rows: seq<seq<real>>): seq<real>
  {
    if rows == [] then [] else Concat(rows[..|rows| - 1]) + rows[|rows| - 1]
  }

  /** An image's scores are its rows written one after the other. */
  lemma {:induction false} FrameScoresConcat(distance: (Shape, Point, Point) -> real, shape: Shape,
                                             before: seq<Detection>, actual: seq<Detection>)
    requires ValidDetections(before) && ValidDetections(actual)
    ensures FrameScores(distance, shape, before, actual) == Concat(Rows(distance, shape, before, actual))
    decreases |actual|
  {
    if actual != [] {
      var m := |actual| - 1;
      FrameScoresConcat(distance, shape, before, actual[..m]);
      var rows := Rows(distance, shape, before, actual);
      assert rows[..m] == Rows(distance, shape, before, actual[..m]);
    }
  }

  lemma {:induction false} ConcatLength(rows: seq<seq<real>>, b: nat)
    requires forall k :: 0 <= k < |rows| ==> |rows[k]| == b
    ensures |Concat(rows)| == |rows| * b
  {
    if rows != [] {
      var m := |rows| - 1;
      ConcatLength(rows[..m], b);
      assert |Concat(rows)| == m * b + b;
      assert m * b + b == (m + 1) * b;
    }
  }

  /** In rows of length `b`, entry `i` of row `j` is at position `j * b + i`. */
  lemma {:induction false} ConcatAt(rows: seq<seq<real>>, b: nat, j: nat, i: nat)
    requires forall k :: 0 <= k < |rows| ==> |rows[k]| == b
    requires j < |rows| && i < b
    ensures j * b + i < |Concat(rows)| && Concat(rows)[j * b + i] == rows[j][i]
    decreases |rows|
  {
    var m := |rows| - 1;
    var front := Concat(rows[..m]);
    ConcatLength(rows[..m], b);
    if j < m {
      ConcatAt(rows[..m], b, j, i);
      IndexInFront(front, rows[m], m, b, j, i);
    } else {
      IndexInRow(front, rows[m], m, b, i);
    }
  }

  /** Position `j * b + i` of `b`-long rows `0 .. m - 1` lies in those rows. */
  lemma IndexInFront(front: seq<real>, row: seq<real>, m: nat, b: nat, j: nat, i: nat)
    requires |front| == m * b && j < m && i < b
    ensures j * b + i < |front| && (front + row)[j * b + i] == front[j * b + i]
  {
    assert (j + 1) * b <= m * b;
  }

  /** Position `m * b + i` is entry `i` of the row after `m` rows of length `b`. */
  lemma IndexInRow(front: seq<real>, row: seq<real>, m: nat, b: nat, i: nat)
    requires |front| == m * b && i < |row|
    ensures (front + row)[m * b + i] == row[i]
  {
  }

  /** The first `t` images print exactly `PairCount(records, t)` probabilities. */
  lemma {:induction false} RunScoresLength(distance: (Shape, Point, Point) -> real, shape: Shape,
                                           histogramOf: (string, seq<int>) -> seq<real>,
                                           records: seq<Record>, t: nat)
    requires Measurable(records, histogramOf) && t <= |records|
    ensures |RunScores(distance, shape, histogramOf, records, t)| == PairCount(records, t)
  {
    if t > 1 {
      RunScoresLength(distance, shape, histogramOf, records, t - 1);
      FrameScoresLength(distance, shape, DetectionsOf(records[t - 2], histogramOf),
                        DetectionsOf(records[t - 1], histogramOf));
    }
  }

  /** When the distance probability stays in [0, 1], every fused score lies in [0, 0.8]. */
  lemma ScoreRange(distance: (Shape, Point, Point) -> real, shape: Shape, actual: Detection, before: Detection)
    requires Histogram.Valid(actual.histogram) && Histogram.Valid(before.histogram)
    requires 0.0 <= distance(shape, actual.center, before.center) <= 1.0
    ensures 0.0 <= Score(distance, shape, actual, before) <= 0.8
  {
    Fusion.SimilarityRange(distance(shape, actual.center, before.center),
                           Histogram.Intersection(actual.histogram, before.histogram));
  }

  predicate InRange(scores: seq<real>)
  {
    forall i :: 0 <= i < |scores| ==> 0.0 <= scores[i] <= 0.8
  }

  lemma {:induction false} FrameScoresRange(distance: (Shape, Point, Point) -> real, shape: Shape,
                                            before: seq<Detection>, actual: seq<Detection>)
    requires ValidDetections(before) && ValidDetections(actual)
    requires forall p, q :: 0.0 <= distance(shape, p, q) <= 1.0
    ensures InRange(FrameScores(distance, shape, before, actual))
    decreases |actual|
  {
    if actual != [] {
      var m := |actual| - 1;
      FrameScoresRange(distance, shape, before, actual[..m]);
      var row := RowScores(distance, shape, actual[m], before);
      forall i | 0 <= i < |before|
        ensures 0.0 <= row[i] <= 0.8
      {
        ScoreRange(distance, shape, actual[m], before[i]);
      }
    }
  }

  /** When the distance probability stays in [0, 1], every probability a run prints lies in
      [0, 0.8]. */
  lemma {:induction false} RunScoresRange(distance: (Shape, Point, Point) -> real, shape: Shape,
                                          histogramOf: (string, seq<int>) -> seq<real>,
                                          records: seq<Record>, t: nat)
    requires Measurable(records, histogramOf) && t <= |records|
    requires forall p, q :: 0.0 <= distance(shape, p, q) <= 1.0
    ensures InRange(RunScores(distance, shape, histogramOf, records, t))
  {
    if t > 1 {
      RunScoresRange(distance, shape, histogramOf, records, t - 1);
      FrameScoresRange(distance, shape, DetectionsOf(records[t - 2], histogramOf),
                       DetectionsOf(records[t - 1], histogramOf));
    }
  }

  /** `compute_distance_probability` is `1 - dist / diagonal`, never above 1. That alone bounds
      every fused score by 0.8. */
  lemma ScoreAtMost(distance: (Shape, Point, Point) -> real, shape: Shape, actual: Detection, before: Detection)
    requires Histogram.Valid(actual.histogram) && Histogram.Valid(before.histogram)
    requires distance(shape, actual.center, before.center) <= 1.0
    ensures Score(distance, shape, actual, before) <= 0.8
  {
    Fusion.SimilarityAtMost(distance(shape, actual.center, before.center),
                            Histogram.Intersection(actual.histogram, before.histogram));
  }

  /** A pair whose distance score falls below -5/3 (the pair lies much farther apart than the
      first image's diagonal, which the source does not clamp) gets a negative score. */
  lemma ScoreCanBeNegative(distance: (Shape, Point, Point) -> real, shape: Shape, actual: Detection, before: Detection)
    requires Histogram.Valid(actual.histogram) && Histogram.Valid(before.histogram)
    requires 3.0 * distance(shape, actual.center, before.center) < -5.0
    ensures Score(distance, shape, actual, before) < 0.0
  {
    Fusion.SimilarityCanBeNegative(distance(shape, actual.center, before.center),
                                   Histogram.Intersection(actual.histogram, before.histogram));
  }

  predicate AtMost(scores: seq<real>)
  {
    forall i :: 0 <= i < |scores| ==> scores[i] <= 0.8
  }

  lemma {:induction false} FrameScoresAtMost(distance: (Shape, Point, Point) -> real, shape: Shape,
                                             before: seq<Detection>, actual: seq<Detection>)
    requires ValidDetections(before) && ValidDetections(actual)
    requires forall p, q :: distance(shape, p, q) <= 1.0
    ensures AtMost(FrameScores(distance, shape, before, actual))
    decreases |actual|
  {
    if actual != [] {
      var m := |actual| - 1;
      FrameScoresAtMost(distance, shape, before, actual[..m]);
      var row := RowScores(distance, shape, actual[m], before);
      forall i | 0 <= i < |before|
        ensures row[i] <= 0.8
      {
        ScoreAtMost(distance, shape, actual[m], before[i]);
      }
    }
  }

  /** With only the bound the source guarantees, a distance score of at most 1, every
      probability the first `t` images print is at most 0.8. */
  lemma {:induction false} RunScoresAtMost(distance: (Shape, Point, Point) -> real, shape: Shape,
                                           histogramOf: (string, seq<int>) -> seq<real>,
                                           records: seq<Record>, t: nat)
    requires Measurable(records, histogramOf) && t <= |records|
    requires forall p, q :: distance(shape, p, q) <= 1.0
    ensures AtMost(RunScores(distance, shape, histogramOf, records, t))
  {
    if t > 1 {
      RunScoresAtMost(distance, shape, histogramOf, records, t - 1);
      FrameScoresAtMost(distance, shape, DetectionsOf(records[t - 2], histogramOf),
                        DetectionsOf(records[t - 1], histogramOf));
    }
  }
}
