# persons-tracker, modelled in Dafny

`PersonTracker` (main.py) reads a detection file that lists one image name, a count and that many
bounding boxes per image. For each image after the first, it scores each detection against each
detection of the previous image. A score fuses two cues through a small Bayesian network:
a distance probability and a grey-level histogram intersection. The program prints the scores and
never turns them into track identities.

This project models the sequential, non-I/O core of that program:

- `loader.dfy` (module `Loader`): `load_data`, the three-state line machine driven by
  `bboxes_count`. `LoadData` is the loop of the source. It is proved equal to `Parse`, a reading of
  the file one group at a time. The lemmas about `Parse` cover:
  - the round trip over well-formed files;
  - groups with a count of 0, which are skipped;
  - groups cut short by the end of the file, which are dropped;
  - counts of -1 and below -1;
  - what a successful read emits.
- `numbers.dfy` (module `Numbers`): Python's `int()` on a float, which truncates toward zero.
- `geometry.dfy` (module `Geometry`): `calculate_center`.
- `histogram.dfy` (module `Histogram`): `compute_histogram_similarity`, over `seq<real>`.
- `fusion.dfy` (module `Fusion`): `calculate_similarity`. The network's marginal for
  `Similarity = 1` is computed exactly over `real`, and proved equal to the closed form
  `0.5 (1-d) h + 0.7 d (1-h) + 0.8 d h`.
- `tracking.dfy` (module `Tracking`): the loops of `frames_following`. The method results are the
  `frames_numbers` list, the printed probabilities in print order, and the final `image_shape` and
  `before_frame_data`.
- `wrappers.dfy` (module `Wrappers`): `Option` and `Result`.

Behaviour of the code worth knowing (the model follows it):

- Centers are truncated toward zero (`int(x + w / 2)`), not rounded.
- The distance probability uses the first image's shape for every frame and is not clamped to
  [0, 1]. It is never above 1, which keeps every printed score at most 0.8. It can be negative,
  and a far-apart pair then prints a negative "probability".
- A group whose count is 0 is never emitted. The image is absent from the records, so the next
  image is scored against the image before the empty one.
- A group cut short by the end of the file is dropped silently, with no error.
- A count of -1 makes the reader wait for another count line.
- A count below -1 is never counted down to 0, so every later line is read as a bbox line.
- No assignment, track identity or registry exists in the code, and none is modelled.

## Model

| member | source | states |
|---|---|---|
| Numbers.Trunc | main.py:50 | `int()` of a float is the integer between the value and zero that lies within one of it (truncation, not flooring) |
| Numbers.TruncHalf | main.py:103-104 | truncating `a / 2` is integer division of `a` by two rounded toward zero |
| Geometry.Center | main.py:101-105 | the center exists exactly when the bbox has four coordinates; each coordinate is `(2x + w) / 2` rounded toward zero |
| Geometry.CenterOfNonNegative | main.py:101-105 | for non-negative coordinates the center is `(x + w // 2, y + h // 2)` |
| Geometry.CenterInsideBox | main.py:101-105 | with non-negative width and height the center lies inside the box, edges included |
| Geometry.CenterRoundsTowardZero | main.py:103-104 | at `x = -3, w = 1` the center is -2, whereas `x + w // 2` is -3 |
| Histogram.Normalize | main.py:135-136 | each bucket divided by the total; the result has the same length, is non-negative and sums to 1 |
| Histogram.PairwiseMin | main.py:137 | bucket `i` of the result is the smaller of the two buckets `i` |
| Histogram.Intersection | main.py:133-139 | for non-negative histograms of equal length with positive totals, the similarity lies in [0, 1] |
| Histogram.IntersectionSymmetric | main.py:134-139 | swapping the two histograms does not change the similarity |
| Histogram.IntersectionSelf | main.py:134-139 | a histogram compared with itself scores exactly 1 |
| Histogram.IntersectionIsOneIff | main.py:134-139 | the similarity is 1 if and only if the two normalised histograms are equal |
| Fusion.Similarity | main.py:141-162 | the normalised marginal of `Similarity = 1` equals `0.5 (1-d) h + 0.7 d (1-h) + 0.8 d h` for all real d and h |
| Fusion.TableColumnsSumToOne | main.py:152-154 | each column of the conditional table is a probability distribution |
| Fusion.MarginalsSumToOne | main.py:158-160 | the marginals of both states of Similarity sum to 1, so the query's normalisation changes nothing |
| Fusion.SimilarityCorners | main.py:152-153 | at certain cues the result is the table entry: 0, 0.5, 0.7 and 0.8 |
| Fusion.SimilarityRange | main.py:146-153 | for d and h in [0, 1] the result lies in [0, 0.8] |
| Fusion.SimilarityIncreasesWithDistance | main.py:146-153 | with h in [0, 1] fixed, a larger d gives a strictly larger result |
| Fusion.SimilarityIncreasesWithHistogram | main.py:146-153 | with d in [0, 1] fixed, a larger h gives a strictly larger result |
| Fusion.SimilarityAtMost | main.py:146-153 | a distance score of at most 1, of any sign, and h in [0, 1] give a result of at most 0.8 |
| Fusion.SimilarityCanBeNegative | main.py:146-153 | a distance score below -5/3 with h in [0, 1] gives a negative result; at d = -1, h = 0 it is -0.7 |
| Fusion.DistanceOutweighsHistogram | main.py:152-153 | a certainty t > 0 of closeness alone scores higher than the same certainty of likeness alone |
| Loader.BoxOf | main.py:50 | one coordinate per token, each the token's value truncated toward zero |
| Loader.LoadData | main.py:22-61 | the line machine yields what `Parse` reads group by group, including the first line that fails `int()` or `float()`, with its index |
| Loader.ResumeName | main.py:37-41 | at the start of a group the line is taken as the image name, the pending boxes are cleared and the next line is read as a count |
| Loader.ResumeCount | main.py:44-45 | a count line that reads as an integer puts the reader in the state that count names |
| Loader.ResumeBox | main.py:48-57 | a bbox line appends its box; when the count reaches 0 the group is emitted with all its boxes and the next line starts a new group |
| Loader.ParseGroup | main.py:36-57 | a group with boxes is emitted as its record; a group with count 0 is skipped and the next line is read as an image name |
| Loader.ParseFileThen | main.py:32-57 | a well-formed file followed by anything reads as the file's non-empty records, in order, followed by what the rest reads as |
| Loader.ParseFile | main.py:32-57 | a well-formed file reads as its records in file order, each with the boxes of its own lines, with zero-box records left out |
| Loader.ZeroCountSkipsGroup | main.py:44-45 | a count of 0 emits nothing, and the line after it is read as the next image name |
| Loader.ParseCutShort | main.py:52-57 | a group cut short by the end of the file emits nothing and raises nothing |
| Loader.ParseFileCutShort | main.py:52-57 | a well-formed file followed by a cut-short group reads as the file alone |
| Loader.MinusOneCountIsSkipped | main.py:44-45 | a count line of -1 is as if absent: the next line is read as the count |
| Loader.NegativeCountSwallowsRest | main.py:44-55 | after a count below -1 nothing more is emitted; every later line is read as a bbox line |
| Loader.ParseEmits | main.py:52-57 | every record read has at least one box, and a file of n lines gives at most n / 3 records |
| Loader.BoxTruncatesTowardZero | main.py:50 | the tokens 12.7, -3.5, 0.9 and 40.0 give the coordinates 12, -3, 0 and 40 |
| Loader.BoxOfIntegers | main.py:50 | integer-valued tokens read back as the same integers |
| Tracking.DetectionsOf | main.py:74-77 | one detection per bbox, in order, holding the bbox's center and its crop's histogram |
| Tracking.RowScores | main.py:79-87 | entry i is the fused score of the current detection against previous detection i |
| Tracking.ScoreAgainst | main.py:79-88 | the inner loop computes one score per previous detection, in order, each the fused score of the pair |
| Tracking.FollowFrame | main.py:68-91 | one image yields its detections in bbox order and a -1 per bbox when there is no previous image; otherwise it yields no -1 marks and all pairwise scores |
| Tracking.FollowedBoxesStep | main.py:73-90 | one pass of the bbox loop appends the bbox's detection, a -1 when there is no previous image, and otherwise the bbox's row of scores |
| Tracking.FollowedStep | main.py:66-92 | one pass of the image loop appends the image's `frames_numbers` entry and its scores, and makes its detections the previous image's |
| Tracking.FramesFollowing | main.py:63-93 | `frames_numbers` has one entry per image: a -1 per bbox for the first image and empty after that; the scores are those of each image against its predecessor; `image_shape` is the first image's and `before_frame_data` the last image's detections |
| Tracking.FrameScoresLength | main.py:74-88 | an image contributes exactly (current detections) x (previous detections) scores |
| Tracking.FrameScoresConcat | main.py:73-88 | an image prints one row per current detection, the rows one after the other in bbox order |
| Tracking.FrameScoresAt | main.py:74-88 | the score of current detection j against previous detection i is printed at position j x (previous count) + i |
| Tracking.RunScoresLength | main.py:66-92 | the first t images print exactly the sum, over consecutive image pairs among them, of the products of their bbox counts |
| Tracking.ScoreRange | main.py:80-87 | conditionally: when the distance probability lies in [0, 1], a fused score lies in [0, 0.8] |
| Tracking.ScoreAtMost | main.py:80-87 | a distance probability of at most 1, which `1 - dist / diagonal` always is, keeps the fused score at most 0.8 |
| Tracking.ScoreCanBeNegative | main.py:80-87 | a distance probability below -5/3, which the unclamped distance allows, gives a negative fused score |
| Tracking.RunScoresRange | main.py:80-87 | conditionally: when the distance probability always lies in [0, 1], every score the first t images print lies in [0, 0.8] |
| Tracking.FrameScoresAtMost | main.py:74-88 | when the distance probability is never above 1, every score an image prints is at most 0.8 |
| Tracking.RunScoresAtMost | main.py:66-92 | when the distance probability is never above 1, the only bound the source guarantees, every score the first t images print is at most 0.8 |

## Left out

- Reading the file and building the `pandas.DataFrame` (main.py:25-26, 59). The model starts from the lines and returns a sequence of records.
- Parsing Python numeric literals. Each `Line` carries its `strip()`-ped text, the value of `int(line)` and the values of `float` of its tokens. Either of the last two is `None` when the conversion raises.
- Floating point. The model computes over exact `real` numbers, so IEEE rounding in the histogram division, the fused score and `x + w / 2` is not modelled. That sum is exact while |2x + w| < 2^53, for example when all coordinates are below 2^51 in magnitude.
- `load_image`, `cut_image`, `create_histogram` (OpenCV and numpy slicing). They are parameters of `FramesFollowing`: `shapeOf` gives the shape of an image by name, and `histogramOf` gives the histogram of a bbox's crop.
- A failed image load (`cv2.imread` returning `None`) is not modelled.
- `compute_distance_probability` and `calculate_distance` use `math.sqrt` over floats. The distance probability is the parameter `distance`, and no bound on it is assumed except where a lemma states one as a hypothesis.
- pgmpy's `BayesianNetwork`, `TabularCPD` and `VariableElimination`. Only their result is modelled, as an exact marginalisation. pgmpy's own checks on CPD values are not modelled.
- `print` (main.py:88, 161). The printed probabilities are the returned `scores`, one entry per computed probability. The source prints each one twice.
- `__init__`, `run`, `draw_image`, `draw_bboxes`, `draw_centers`, `show_img`, `get_dataset_path_as_arg` and `__main__`: paths, display and the command line.
- Assignment of scores to tracks, and any track registry: the source has neither.
- Tracking.FramesFollowing: requires every bbox to have four coordinates and every histogram to have 256 non-negative buckets with a positive total. On other input the source raises in `calculate_center` or divides by zero.
- Tracking.ScoreAgainst: carries the same histogram requirement as `FramesFollowing`, for the same reason.
- Tracking.FollowFrame: carries the same bbox and histogram requirements as `FramesFollowing`, for the same reason.
- Histogram.Intersection: requires equal lengths and positive totals. numpy would broadcast shapes of unequal length, and a zero total gives NaN.
