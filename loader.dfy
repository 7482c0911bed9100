/** `PersonTracker.load_data`: reads the detection file line by line and groups it into one record
    per image. The file repeats: an image name line, a count line `n`, then `n` bbox lines. */
module Loader {
  import opened Wrappers
  import opened Numbers

  /** One line of the detection file after `strip()`, with the two readings the reader may give
      it: `integer` is the value of `int(line)` (None when it raises), `numbers` the values of
      `float(token)` for the whitespace-separated tokens (None when some token is not a finite
      float, so that `float` or the following `int` raises). */
  datatype Line = Line(text: string, integer: Option<int>, numbers: Option<seq<real>>)

  /** One row of the result: the image name and its bounding boxes, each box the integer
      coordinates of one line. */
  datatype Record = Record(imageName: string, boxes: seq<seq<int>>)

  /** The exception that ends reading, with the 0-based index of the offending line. */
  datatype LoadError = NotAnInteger(lineIndex: nat) | NotANumber(lineIndex: nat)

  type Load = Result<seq<Record>, LoadError>

  /** `[int(float(number)) for number in line.split()]`. */
  function BoxOf(numbers: seq<real>): (box: seq<int>)
    ensures |box| == |numbers|
    ensures forall k :: 0 <= k < |numbers| ==> box[k] == Trunc(numbers[k])
  {
    seq(|numbers|, k requires 0 <= k < |numbers| => Trunc(numbers[k]))
  }

  /** The index of the first line that is not a bbox line, or `|lines|` when all are. */
  function FirstBad(lines: seq<Line>): (k: nat)
    ensures k <= |lines|
    ensures forall j :: 0 <= j < k ==> lines[j].numbers.Some?
    ensures k < |lines| ==> lines[k].numbers.None?
  {
    if lines == [] || lines[0].numbers.None? then 0 else 1 + FirstBad(lines[1..])
  }

  /** The boxes of a run of bbox lines, in order. */
  function Boxes(lines: seq<Line>): (boxes: seq<seq<int>>)
    requires forall j :: 0 <= j < |lines| ==> lines[j].numbers.Some?
    ensures |boxes| == |lines|
  {
    seq(|lines|, j requires 0 <= j < |lines| => BoxOf(lines[j].numbers.value))
  }

  function Prepend(r: Record, rest: Load): Load
  {
    match rest
    case Ok(rs) => Ok([r] + rs)
    case Err(e) => Err(e)
  }

  function Then(done: seq<Record>, rest: Load): Load
  {
    match rest
    case Ok(rs) => Ok(done + rs)
    case Err(e) => Err(e)
  }

  // The reading of a file group by group. `at` is the index of `lines[0]` in the whole file.

  /** Reading at the start of a group: the first line is the image name. */
  function Parse(lines: seq<Line>, at: nat): Load
    decreases |lines|
  {
    if lines == [] then Ok([]) else ReadCount(lines[0].text, lines[1..], at + 1)
  }

  /** Reading after the image name: the first line is the count. A count of 0 ends the group
      with nothing emitted; a count of -1 leaves the reader waiting for a count; a count below
      -1 is never counted down to 0, so every later line is read as a bbox line. */
  function ReadCount(name: string, lines: seq<Line>, at: nat): Load
    decreases |lines|
  {
    if lines == [] then Ok([])
    else match lines[0].integer
      case None => Err(NotAnInteger(at))
      case Some(n) =>
        if n == 0 then Parse(lines[1..], at + 1)
        else if n == -1 then ReadCount(name, lines[1..], at + 1)
        else if n > 0 then ReadBoxes(name, [], n, lines[1..], at + 1)
        else Drain(lines[1..], at + 1)
  }

  /** Reading the remaining `n` bbox lines of a group that already has `done`. The group is
      emitted once its last bbox line is read; a group cut short by the end of the file is not. */
  function ReadBoxes(name: string, done: seq<seq<int>>, n: int, lines: seq<Line>, at: nat): Load
    requires n > 0
    decreases |lines|
  {
    var k := FirstBad(lines);
    if k < n && k < |lines| then Err(NotANumber(at + k))
    else if |lines| < n then Ok([])
    else Prepend(Record(name, done + Boxes(lines[..n])), Parse(lines[n..], at + n))
  }

  /** Reading after a count below -1: every line is a bbox line and nothing is emitted. */
  function Drain(lines: seq<Line>, at: nat): Load
  {
    var k := FirstBad(lines);
    if k < |lines| then Err(NotANumber(at + k)) else Ok([])
  }

  /** What the reader still produces from `lines`, in the state `count` (the variable
      `bboxes_count`) with the pending `name` and `boxes`. */
  function Resume(count: int, name: string, boxes: seq<seq<int>>, lines: seq<Line>, at: nat): Load
  {
    if count == 0 then Parse(lines, at)
    else if count == -1 then ReadCount(name, lines, at)
    else if count > 0 then ReadBoxes(name, boxes, count, lines, at)
    else Drain(lines, at)
  }

  /** `load_data`, over the lines of the file: the state machine of the source, proved to read
      the file group by group as `Parse` does. */
  method LoadData(lines: seq<Line>) returns (r: Load)
    ensures r == Parse(lines, 0)
  {
    var data: seq<Record> := [];
    var count := 0;
    var name := "";
    var boxes: seq<seq<int>> := [];
    var i := 0;
    assert lines[0..] == lines;
    ThenNothing(Parse(lines, 0));
    while i < |lines|
      invariant 0 <= i <= |lines|
      invariant count == -1 ==> boxes == []
      invariant Parse(lines, 0) == Then(data, Resume(count, name, boxes, lines[i..], i))
    {
      var line := lines[i];
      assert lines[i..][0] == line && lines[i..][1..] == lines[i + 1..];
      if count == 0 {
        ResumeName(name, boxes, lines[i..], i);
        name, boxes, count := line.text, [], -1;
      } else if count == -1 {
        match line.integer
        case None =>
          return Err(NotAnInteger(i));
        case Some(n) =>
          ResumeCount(name, lines[i..], i);
          count := n;
      } else {
        match line.numbers
        case None =>
          DrainOrBoxesFail(count, name, boxes, lines[i..], i);
          return Err(NotANumber(i));
        case Some(ns) =>
          ResumeBox(count, name, boxes, lines[i..], i);
          boxes := boxes + [BoxOf(ns)];
          count := count - 1;
          if count == 0 {
            ThenPrepend(data, Record(name, boxes), Parse(lines[i + 1..], i + 1));
            data := data + [Record(name, boxes)];
          }
      }
      i := i + 1;
    }
    assert lines[i..] == [];
    assert data + [] == data;
    r := Ok(data);
  }

  /** The image name line: the reader stores the name and waits for a count. */
  lemma ResumeName(name: string, boxes: seq<seq<int>>, lines: seq<Line>, at: nat)
    requires lines != []
    ensures Resume(0, name, boxes, lines, at) == Resume(-1, lines[0].text, [], lines[1..], at + 1)
  {
  }

  /** The count line: the reader continues in the state the count names. */
  lemma ResumeCount(name: string, lines: seq<Line>, at: nat)
    requires lines != [] && lines[0].integer.Some?
    ensures Resume(-1, name, [], lines, at) == Resume(lines[0].integer.value, name, [], lines[1..], at + 1)
  {
  }

  /** A bbox line: one more box, and the group is emitted when the count reaches 0. */
  lemma ResumeBox(count: int, name: string, boxes: seq<seq<int>>, lines: seq<Line>, at: nat)
    requires count != 0 && count != -1
    requires lines != [] && lines[0].numbers.Some?
    ensures var more := boxes + [BoxOf(lines[0].numbers.value)];
      Resume(count, name, boxes, lines, at) ==
        if count == 1 then Prepend(Record(name, more), Parse(lines[1..], at + 1))
        else Resume(count - 1, name, more, lines[1..], at + 1)
  {
    if count > 0 {
      ReadBoxesStep(name, boxes, count, lines, at);
    } else {
      DrainStep(lines, at);
    }
  }

  lemma ThenNothing(rest: Load)
    ensures Then([], rest) == rest
  {
    if rest.Ok? {
      assert [] + rest.value == rest.value;
    }
  }

  lemma ThenPrepend(done: seq<Record>, r: Record, rest: Load)
    ensures Then(done, Prepend(r, rest)) == Then(done + [r], rest)
  {
    if rest.Ok? {
      assert done + ([r] + rest.value) == (done + [r]) + rest.value;
    }
  }

  /** A bbox line that does not read as numbers ends reading with its own index. */
  lemma DrainOrBoxesFail(count: int, name: string, boxes: seq<seq<int>>, lines: seq<Line>, at: nat)
    requires count != 0 && count != -1
    requires lines != [] && lines[0].numbers.None?
    ensures Resume(count, name, boxes, lines, at) == Err(NotANumber(at))
  {
  }

  /** One bbox line read inside a group. */
  lemma ReadBoxesStep(name: string, done: seq<seq<int>>, n: int, lines: seq<Line>, at: nat)
    requires n > 0 && lines != [] && lines[0].numbers.Some?
    ensures var box := BoxOf(lines[0].numbers.value);
      ReadBoxes(name, done, n, lines, at) ==
        if n == 1 then Prepend(Record(name, done + [box]), Parse(lines[1..], at + 1))
        else ReadBoxes(name, done + [box], n - 1, lines[1..], at + 1)
  {
    var k := FirstBad(lines);
    assert k == 1 + FirstBad(lines[1..]);
    if k >= n && |lines| >= n {
      ReadBoxesStepComplete(name, done, n, lines, at);
    } else {
      ReadBoxesStepIncomplete(name, done, n, lines, at);
    }
  }

  lemma ReadBoxesStepIncomplete(name: string, done: seq<seq<int>>, n: int, lines: seq<Line>, at: nat)
    requires n > 0 && lines != [] && lines[0].numbers.Some?
    requires FirstBad(lines) == 1 + FirstBad(lines[1..])
    requires !(FirstBad(lines) >= n && |lines| >= n)
    ensures n > 1
    ensures ReadBoxes(name, done, n, lines, at)
      == ReadBoxes(name, done + [BoxOf(lines[0].numbers.value)], n - 1, lines[1..], at + 1)
  {
  }

  lemma ReadBoxesStepComplete(name: string, done: seq<seq<int>>, n: int, lines: seq<Line>, at: nat)
    requires n > 0 && lines != [] && lines[0].numbers.Some?
    requires FirstBad(lines) == 1 + FirstBad(lines[1..])
    requires FirstBad(lines) >= n && |lines| >= n
    ensures var box := BoxOf(lines[0].numbers.value);
      ReadBoxes(name, done, n, lines, at) ==
        if n == 1 then Prepend(Record(name, done + [box]), Parse(lines[1..], at + 1))
        else ReadBoxes(name, done + [box], n - 1, lines[1..], at + 1)
  {
    var box := BoxOf(lines[0].numbers.value);
    var rest := lines[1..];
    ReadBoxesComplete(name, done, n, lines, at);
    var group := done + Boxes(lines[..n]);
    assert group == (done + [box]) + Boxes(rest[..n - 1]) by {
      BoxesFirst(lines, n);
    }
    assert lines[n..] == rest[n - 1..];
    if n == 1 {
      assert group == done + [box];
    } else {
      ReadBoxesComplete(name, done + [box], n - 1, rest, at + 1);
    }
  }

  /** The boxes of a run of bbox lines are the first line's box followed by the others'. */
  lemma BoxesFirst(lines: seq<Line>, n: int)
    requires 0 < n <= |lines|
    requires forall j :: 0 <= j < n ==> lines[j].numbers.Some?
    ensures Boxes(lines[..n]) == [BoxOf(lines[0].numbers.value)] + Boxes(lines[1..][..n - 1])
  {
    assert lines[..n] == [lines[0]] + lines[1..][..n - 1];
  }

  /** A group whose remaining bbox lines are all present and well-formed is emitted. */
  lemma ReadBoxesComplete(name: string, done: seq<seq<int>>, n: int, lines: seq<Line>, at: nat)
    requires n > 0 && FirstBad(lines) >= n && |lines| >= n
    ensures ReadBoxes(name, done, n, lines, at)
      == Prepend(Record(name, done + Boxes(lines[..n])), Parse(lines[n..], at + n))
  {
  }

  /** One bbox line read after a count below -1. */
  lemma DrainStep(lines: seq<Line>, at: nat)
    requires lines != [] && lines[0].numbers.Some?
    ensures Drain(lines, at) == Drain(lines[1..], at + 1)
  {
    assert FirstBad(lines) == 1 + FirstBad(lines[1..]);
  }

  // Properties of the reading.

  /** The lines `g` are the group of record `r` in the file: its image name, a count line
      holding the number of boxes, then one line per box whose numbers truncate to that box. */
  predicate IsGroup(g: seq<Line>, r: Record)
  {
    && |g| == 2 + |r.boxes|
    && g[0].text == r.imageName
    && g[1].integer == Some(|r.boxes|)
    && forall k :: 2 <= k < |g| ==>
         g[k].numbers.Some? && BoxOf(g[k].numbers.value) == r.boxes[k - 2]
  }

  /** The lines are the groups of `recs`, one after the other. */
  predicate IsFile(lines: seq<Line>, recs: seq<Record>)
    decreases recs
  {
    if recs == [] then lines == []
    else
      var n := 2 + |recs[0].boxes|;
      n <= |lines| && IsGroup(lines[..n], recs[0]) && IsFile(lines[n..], recs[1..])
  }

  /** The records that have at least one box, in order. */
  function Emitted(recs: seq<Record>): seq<Record>
  {
    if recs == [] then []
    else (if |recs[0].boxes| > 0 then [recs[0]] else []) + Emitted(recs[1..])
  }

  /** A group interrupted by the end of the file: at most an image name, or a positive count
      followed by fewer bbox lines than it announces. */
  predicate IsCutShort(tail: seq<Line>)
  {
    || |tail| <= 1
    || (&& tail[1].integer.Some?
        && tail[1].integer.value > 0
        && |tail| < tail[1].integer.value + 2
        && forall k :: 2 <= k < |tail| ==> tail[k].numbers.Some?)
  }

  lemma PrependThen(r: Record, done: seq<Record>, rest: Load)
    ensures Prepend(r, Then(done, rest)) == Then([r] + done, rest)
  {
    if rest.Ok? {
      assert [r] + (done + rest.value) == ([r] + done) + rest.value;
    }
  }

  lemma FirstBadAtLeast(lines: seq<Line>, n: nat)
    requires n <= |lines|
    requires forall j :: 0 <= j < n ==> lines[j].numbers.Some?
    ensures FirstBad(lines) >= n
  {
  }

  /** Reading a group: a group with boxes is emitted as its record, a group whose count is 0 is
      skipped and the line after it is read as the next image name. */
  lemma ParseGroup(g: seq<Line>, r: Record, rest: seq<Line>, at: nat)
    requires IsGroup(g, r)
    ensures Parse(g + rest, at) ==
      if |r.boxes| == 0 then Parse(rest, at + |g|) else Prepend(r, Parse(rest, at + |g|))
  {
    var all := g + rest;
    var n := |r.boxes|;
    var body := g[2..];
    assert all[1..][0] == g[1];
    assert all[1..][1..] == body + rest;
    assert Parse(all, at) == ReadCount(g[0].text, all[1..], at + 1);
    if n == 0 {
      assert body + rest == rest;
    } else {
      forall k | 0 <= k < |body|
        ensures body[k].numbers.Some? && BoxOf(body[k].numbers.value) == r.boxes[k]
      {
        assert body[k] == g[k + 2];
      }
      GroupReadBoxes(g[0].text, body, r.boxes, rest, at + 2);
    }
  }

  /** The bbox lines of a group with boxes, followed by anything: the group is emitted and
      reading resumes after it. */
  lemma GroupReadBoxes(name: string, body: seq<Line>, boxes: seq<seq<int>>, rest: seq<Line>, at: nat)
    requires |body| == |boxes| > 0
    requires forall k :: 0 <= k < |body| ==>
      body[k].numbers.Some? && BoxOf(body[k].numbers.value) == boxes[k]
    ensures ReadBoxes(name, [], |boxes|, body + rest, at)
      == Prepend(Record(name, boxes), Parse(rest, at + |body|))
  {
    var all := body + rest;
    var n := |boxes|;
    forall j | 0 <= j < n
      ensures all[j].numbers.Some?
    {
      assert all[j] == body[j];
    }
    FirstBadAtLeast(all, n);
    ReadBoxesComplete(name, [], n, all, at);
    assert all[..n] == body;
    assert [] + Boxes(body) == boxes;
    assert all[n..] == rest;
  }

  /** A well-formed file followed by anything reads as the non-empty records of the file followed
      by what the rest reads as. */
  lemma {:induction false} ParseFileThen(lines: seq<Line>, recs: seq<Record>, rest: seq<Line>, at: nat)
    requires IsFile(lines, recs)
    ensures Parse(lines + rest, at) == Then(Emitted(recs), Parse(rest, at + |lines|))
    decreases recs
  {
    if recs == [] {
      assert lines + rest == rest;
      ThenNothing(Parse(rest, at));
    } else {
      var n := 2 + |recs[0].boxes|;
      assert lines + rest == lines[..n] + (lines[n..] + rest);
      ParseGroup(lines[..n], recs[0], lines[n..] + rest, at);
      ParseFileThen(lines[n..], recs[1..], rest, at + n);
      if |recs[0].boxes| == 0 {
        assert Emitted(recs) == [] + Emitted(recs[1..]);
        assert [] + Emitted(recs[1..]) == Emitted(recs[1..]);
      } else {
        PrependThen(recs[0], Emitted(recs[1..]), Parse(rest, at + |lines|));
      }
    }
  }

  /** A well-formed file reads as its records, in file order, with the zero-box records left
      out; each record keeps the boxes of its own lines. */
  lemma ParseFile(lines: seq<Line>, recs: seq<Record>, at: nat)
    requires IsFile(lines, recs)
    ensures Parse(lines, at) == Ok(Emitted(recs))
  {
    ParseFileThen(lines, recs, [], at);
    assert lines + [] == lines;
    assert Emitted(recs) + [] == Emitted(recs);
  }

  /** A group cut short by the end of the file is dropped without an error. */
  lemma ParseCutShort(tail: seq<Line>, at: nat)
    requires IsCutShort(tail)
    ensures Parse(tail, at) == Ok([])
  {
    if |tail| > 1 {
      var body := tail[2..];
      assert tail[1..][0] == tail[1];
      assert tail[1..][1..] == body;
      forall j | 0 <= j < |body|
        ensures body[j].numbers.Some?
      {
        assert body[j] == tail[2 + j];
      }
      FirstBadAtLeast(body, |body|);
      var n := tail[1].integer.value;
      assert ReadBoxes(tail[0].text, [], n, body, at + 2) == Ok([]);
      assert Parse(tail, at) == ReadCount(tail[0].text, tail[1..], at + 1);
    }
  }

  /** A well-formed file followed by a cut-short group reads as the file alone. */
  lemma ParseFileCutShort(lines: seq<Line>, recs: seq<Record>, tail: seq<Line>)
    requires IsFile(lines, recs) && IsCutShort(tail)
    ensures Parse(lines + tail, 0) == Ok(Emitted(recs))
  {
    ParseFileThen(lines, recs, tail, 0);
    ParseCutShort(tail, |lines|);
    assert Emitted(recs) + [] == Emitted(recs);
  }

  /** A count of 0 ends the group without emitting it, and the line after the count is read as
      the next image name. */
  lemma ZeroCountSkipsGroup(lines: seq<Line>, at: nat)
    requires |lines| >= 2 && lines[1].integer == Some(0)
    ensures Parse(lines, at) == Parse(lines[2..], at + 2)
  {
    assert lines[1..][0] == lines[1];
    assert lines[1..][1..] == lines[2..];
  }

  /** A count of -1 leaves the reader waiting for a count: the count line is as if absent. */
  lemma MinusOneCountIsSkipped(lines: seq<Line>, at: nat)
    requires |lines| >= 2 && lines[1].integer == Some(-1)
    ensures Parse(lines, at) == Parse([lines[0]] + lines[2..], at + 1)
  {
    var short := [lines[0]] + lines[2..];
    assert short[1..] == lines[1..][1..];
  }

  /** A count below -1 is never counted down to 0: no later group is emitted, and every later
      line must read as numbers. */
  lemma NegativeCountSwallowsRest(lines: seq<Line>, at: nat)
    requires |lines| >= 2 && lines[1].integer.Some? && lines[1].integer.value < -1
    requires forall k :: 2 <= k < |lines| ==> lines[k].numbers.Some?
    ensures Parse(lines, at) == Ok([])
  {
    var body := lines[2..];
    assert lines[1..][0] == lines[1];
    assert lines[1..][1..] == body;
    forall j | 0 <= j < |body|
      ensures body[j].numbers.Some?
    {
      assert body[j] == lines[2 + j];
    }
    FirstBadAtLeast(body, |body|);
  }

  /** What a reading emits from a budget of lines: each record has at least one box and uses
      at least three lines (name, count, one box). */
  predicate Emits(l: Load, budget: int)
  {
    l.Ok? ==> 3 * |l.value| <= budget && forall r :: r in l.value ==> |r.boxes| > 0
  }

  lemma EmitsPrepend(r: Record, l: Load, budget: int)
    requires |r.boxes| > 0 && Emits(l, budget - 3)
    ensures Emits(Prepend(r, l), budget)
  {
  }

  /** Every record read has at least one box, and a file of `n` lines gives at most `n / 3`
      records. */
  lemma {:induction false} ParseEmits(lines: seq<Line>, at: nat)
    ensures Emits(Parse(lines, at), |lines|)
    decreases |lines|
  {
    if lines != [] {
      ReadCountEmits(lines[0].text, lines[1..], at + 1);
    }
  }

  lemma {:induction false} ReadCountEmits(name: string, lines: seq<Line>, at: nat)
    ensures Emits(ReadCount(name, lines, at), |lines| + 1)
    decreases |lines|
  {
    if lines != [] && lines[0].integer.Some? {
      var n := lines[0].integer.value;
      if n == 0 {
        ParseEmits(lines[1..], at + 1);
      } else if n == -1 {
        ReadCountEmits(name, lines[1..], at + 1);
      } else if n > 0 {
        ReadBoxesEmits(name, [], n, lines[1..], at + 1);
      }
    }
  }

  lemma {:induction false} ReadBoxesEmits(name: string, done: seq<seq<int>>, n: int, lines: seq<Line>, at: nat)
    requires n > 0
    ensures Emits(ReadBoxes(name, done, n, lines, at), |lines| + 2)
    decreases |lines|
  {
    var k := FirstBad(lines);
    if !(k < n && k < |lines|) && |lines| >= n {
      ParseEmits(lines[n..], at + n);
      EmitsPrepend(Record(name, done + Boxes(lines[..n])), Parse(lines[n..], at + n), |lines| + 2);
    }
  }

  /** Each coordinate is truncated toward zero: `12.7` gives 12 and `-3.5` gives -3. */
  lemma BoxTruncatesTowardZero()
    ensures BoxOf([12.7, -3.5, 0.9, 40.0]) == [12, -3, 0, 40]
  {
  }

  /** Integer-valued numbers read back as the same integers. */
  lemma BoxOfIntegers(box: seq<int>)
    ensures BoxOf(seq(|box|, k requires 0 <= k < |box| => box[k] as real)) == box
  {
    var b := BoxOf(seq(|box|, k requires 0 <= k < |box| => box[k] as real));
    forall k | 0 <= k < |box|
      ensures b[k] == box[k]
    {
      TruncOfInt(box[k]);
    }
  }
}
