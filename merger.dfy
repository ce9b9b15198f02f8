/** The line merger: consecutive lines of the same page whose size stays
    within 1.0 of the run's first (base) line, and whose y stays within 40 of
    the previously absorbed line, are joined into one logical line. */
module Merger {
  import opened Records
  import opened Text

  /** Whether `next` joins the run based at `base` when the last line absorbed
      sat at `y`. */
  predicate Absorbs(base: LineInfo, y: real, next: LineInfo)
  {
    Within(next.fontSize, base.fontSize, SizeTolerance) && next.page == base.page && Within(next.y, y, LineGap)
  }

  /** Where the run based at `i` ends, once the scan has reached `j` with the
      running y at `y`. */
  function ScanEnd(lines: seq<LineInfo>, i: nat, j: nat, y: real): (e: nat)
    requires i < j <= |lines|
    ensures j <= e <= |lines|
    decreases |lines| - j
  {
    if j < |lines| && Absorbs(lines[i], y, lines[j]) then ScanEnd(lines, i, j + 1, lines[j].y) else j
  }

  /** The end (exclusive) of the run whose base line is `lines[i]`. */
  function RunEnd(lines: seq<LineInfo>, i: nat): (e: nat)
    requires i < |lines|
    ensures i < e <= |lines|
  {
    ScanEnd(lines, i, i + 1, lines[i].y)
  }

  /** The runs of `lines[i..]`, each starting where the previous one stopped. */
  function Segments(lines: seq<LineInfo>, i: nat): (segs: seq<seq<LineInfo>>)
    requires i <= |lines|
    ensures forall k :: 0 <= k < |segs| ==> |segs[k]| > 0
    ensures |segs| <= |lines| - i
    ensures segs == [] <==> i == |lines|
    decreases |lines| - i
  {
    if i == |lines| then []
    else
      var e := RunEnd(lines, i);
      [lines[i..e]] + Segments(lines, e)
  }

  /** The texts of a run, each after the previous one and a space. */
  function JoinTexts(run: seq<LineInfo>): string
    requires |run| > 0
  {
    if |run| == 1 then run[0].text
    else JoinTexts(run[..|run| - 1]) + " " + run[|run| - 1].text
  }

  /** The largest font size of a run. */
  function MaxSize(run: seq<LineInfo>): (m: real)
    requires |run| > 0
    ensures forall k :: 0 <= k < |run| ==> run[k].fontSize <= m
    ensures exists k :: 0 <= k < |run| && run[k].fontSize == m
  {
    if |run| == 1 then run[0].fontSize
    else RealMax(MaxSize(run[..|run| - 1]), run[|run| - 1].fontSize)
  }

  /** The logical line made from one run: the joined text (trimmed), the
      largest size, and the base line's bold flag, page and y. */
  function Combine(run: seq<LineInfo>): LineInfo
    requires |run| > 0
  {
    LineInfo(Trim(JoinTexts(run)), MaxSize(run), run[0].isBold, run[0].page, run[0].y)
  }

  /** The merged lines of `lines[i..]`. */
  function MergeFrom(lines: seq<LineInfo>, i: nat): (r: seq<LineInfo>)
    requires i <= |lines|
    ensures |r| <= |lines| - i
    ensures r == [] <==> i == |lines|
    decreases |lines| - i
  {
    if i == |lines| then []
    else
      var e := RunEnd(lines, i);
      [Combine(lines[i..e])] + MergeFrom(lines, e)
  }

  /** What the merger produces from `lines`: never more lines than it was
      given, and none only when it was given none. */
  function MergeSpec(lines: seq<LineInfo>): (merged: seq<LineInfo>)
    ensures |merged| <= |lines|
    ensures merged == [] <==> lines == []
  {
    MergeFrom(lines, 0)
  }

  function Flatten(segs: seq<seq<LineInfo>>): seq<LineInfo>
  {
    if segs == [] then [] else segs[0] + Flatten(segs[1..])
  }

  /** Every line after the first of `run` joins the run: within 1.0 of the
      first line's size, on its page and within 40 of the previous line's y. */
  predicate Chained(run: seq<LineInfo>)
  {
    forall k :: 0 < k < |run| ==> Absorbs(run[0], run[k - 1].y, run[k])
  }

  /** The scan absorbs a chained run and stops at the first line that does
      not join. */
  lemma {:induction false} ScanEndChained(lines: seq<LineInfo>, i: nat, j: nat, y: real)
    requires i < j <= |lines| && y == lines[j - 1].y && Chained(lines[i..j])
    ensures Chained(lines[i..ScanEnd(lines, i, j, y)])
    ensures var e := ScanEnd(lines, i, j, y);
      e < |lines| ==> !Absorbs(lines[i], lines[e - 1].y, lines[e])
    decreases |lines| - j
  {
    if j < |lines| && Absorbs(lines[i], y, lines[j]) {
      ChainedSnoc(lines, i, j);
      ScanEndChained(lines, i, j + 1, lines[j].y);
    }
  }

  /** A chained run stays chained when the next line joins it. */
  lemma ChainedSnoc(lines: seq<LineInfo>, i: nat, j: nat)
    requires i < j < |lines| && Chained(lines[i..j])
    requires Absorbs(lines[i], lines[j - 1].y, lines[j])
    ensures Chained(lines[i..j + 1])
  {
    var run := lines[i..j + 1];
    forall k | 0 < k < |run|
      ensures Absorbs(run[0], run[k - 1].y, run[k])
    {
      if k < |run| - 1 {
        assert run[k - 1] == lines[i..j][k - 1] && run[k] == lines[i..j][k];
      }
    }
  }


  /** The merged lines are a partition of the input into consecutive runs:
      concatenated, the runs give back the input in order; each run is
      chained; and the first line of each run would not have joined the run
      before it. */
  lemma {:induction false} SegmentsPartition(lines: seq<LineInfo>, i: nat)
    requires i <= |lines|
    ensures Flatten(Segments(lines, i)) == lines[i..]
    ensures forall k :: 0 <= k < |Segments(lines, i)| ==> Chained(Segments(lines, i)[k])
    ensures var segs := Segments(lines, i);
      forall k :: 0 <= k < |segs| - 1 ==>
        !Absorbs(segs[k][0], segs[k][|segs[k]| - 1].y, segs[k + 1][0])
  {
    SegmentsFlatten(lines, i);
    SegmentsChained(lines, i);
    SegmentsMaximal(lines, i);
  }

  /** The runs of `lines[i..]` are the run at `i` followed by the runs after it. */
  lemma SegmentsUnfold(lines: seq<LineInfo>, i: nat)
    requires i < |lines|
    ensures Segments(lines, i) == [lines[i..RunEnd(lines, i)]] + Segments(lines, RunEnd(lines, i))
    ensures Segments(lines, i)[1..] == Segments(lines, RunEnd(lines, i))
  {
  }

  lemma {:induction false} SegmentsFlatten(lines: seq<LineInfo>, i: nat)
    requires i <= |lines|
    ensures Flatten(Segments(lines, i)) == lines[i..]
    decreases |lines| - i
  {
    if i < |lines| {
      var e := RunEnd(lines, i);
      SegmentsFlatten(lines, e);
      SegmentsUnfold(lines, i);
      assert lines[i..e] + lines[e..] == lines[i..];
    }
  }

  lemma {:induction false} SegmentsChained(lines: seq<LineInfo>, i: nat)
    requires i <= |lines|
    ensures forall k :: 0 <= k < |Segments(lines, i)| ==> Chained(Segments(lines, i)[k])
    decreases |lines| - i
  {
    if i < |lines| {
      var e := RunEnd(lines, i);
      var segs: seq<seq<LineInfo>> := Segments(lines, i);
      var rest: seq<seq<LineInfo>> := Segments(lines, e);
      SegmentsChained(lines, e);
      SegmentsUnfold(lines, i);
      ScanEndChained(lines, i, i + 1, lines[i].y);
      forall k | 0 <= k < |segs|
        ensures Chained(segs[k])
      {
        if k > 0 {
          assert segs[k] == rest[k - 1];
        }
      }
    }
  }

  lemma {:induction false} SegmentsMaximal(lines: seq<LineInfo>, i: nat)
    requires i <= |lines|
    ensures var segs := Segments(lines, i);
      forall k :: 0 <= k < |segs| - 1 ==>
        !Absorbs(segs[k][0], segs[k][|segs[k]| - 1].y, segs[k + 1][0])
    decreases |lines| - i
  {
    if i < |lines| {
      var e := RunEnd(lines, i);
      var segs: seq<seq<LineInfo>> := Segments(lines, i);
      var rest: seq<seq<LineInfo>> := Segments(lines, e);
      SegmentsMaximal(lines, e);
      SegmentsUnfold(lines, i);
      ScanEndChained(lines, i, i + 1, lines[i].y);
      forall k | 0 <= k < |segs| - 1
        ensures !Absorbs(segs[k][0], segs[k][|segs[k]| - 1].y, segs[k + 1][0])
      {
        if k > 0 {
          assert segs[k] == rest[k - 1] && segs[k + 1] == rest[k];
        } else {
          SegmentsUnfold(lines, e);
          assert segs[1] == rest[0] == lines[e..RunEnd(lines, e)];
        }
      }
    }
  }

  /** Each run, combined into one logical line. */
  function CombineEach(segs: seq<seq<LineInfo>>): (r: seq<LineInfo>)
    requires forall k :: 0 <= k < |segs| ==> |segs[k]| > 0
    ensures |r| == |segs|
  {
    if segs == [] then []
    else
      var rest := segs[1..];
      assert forall k :: 0 <= k < |rest| ==> rest[k] == segs[k + 1];
      [Combine(segs[0])] + CombineEach(rest)
  }

  /** The k-th combined line is the combination of the k-th run. */
  lemma {:induction false} CombineEachAt(segs: seq<seq<LineInfo>>, k: nat)
    requires forall j :: 0 <= j < |segs| ==> |segs[j]| > 0
    requires k < |segs|
    ensures CombineEach(segs)[k] == Combine(segs[k])
  {
    if k > 0 {
      CombineEachAt(segs[1..], k - 1);
    }
  }

  /** The merged lines are the runs, each combined: the k-th merged line has
      the k-th run's trimmed joined text, its largest size, and its base
      line's bold flag, page and y. */
  lemma {:induction false} MergedAreCombinedRuns(lines: seq<LineInfo>, i: nat)
    requires i <= |lines|
    ensures MergeFrom(lines, i) == CombineEach(Segments(lines, i))
    decreases |lines| - i
  {
    if i < |lines| {
      MergedAreCombinedRuns(lines, RunEnd(lines, i));
      SegmentsUnfold(lines, i);
      MergeFromUnfold(lines, i);
    }
  }

  /** The merged lines of `lines[i..]` are the combined run at `i` followed by
      the merged lines after it. */
  lemma MergeFromUnfold(lines: seq<LineInfo>, i: nat)
    requires i < |lines|
    ensures MergeFrom(lines, i) == [Combine(lines[i..RunEnd(lines, i)])] + MergeFrom(lines, RunEnd(lines, i))
  {
  }


  /** Joining two runs puts one space between their joined texts. */
  lemma {:induction false} JoinTextsAppend(a: seq<LineInfo>, b: seq<LineInfo>)
    requires |a| > 0 && |b| > 0
    ensures JoinTexts(a + b) == JoinTexts(a) + " " + JoinTexts(b)
    decreases |b|
  {
    if |b| > 1 {
      var front := b[..|b| - 1];
      assert (a + b)[..|a + b| - 1] == a + front;
      JoinTextsAppend(a, front);
    }
  }

  /** Joining non-empty trimmed texts gives a non-empty trimmed text, so the
      final `trim()` of the merger changes nothing for acquired lines. */
  lemma {:induction false} JoinedTextIsTrimmed(run: seq<LineInfo>)
    requires |run| > 0
    requires forall k :: 0 <= k < |run| ==> run[k].text != [] && IsTrimmed(run[k].text)
    ensures JoinTexts(run) != [] && IsTrimmed(JoinTexts(run))
    ensures JoinTexts(run)[0] == run[0].text[0]
    ensures Trim(JoinTexts(run)) == JoinTexts(run)
  {
    if |run| > 1 {
      JoinedTextIsTrimmed(run[..|run| - 1]);
    }
    TrimIdentity(JoinTexts(run));
  }

  /** Merging lines with non-empty trimmed texts gives lines with non-empty
      trimmed texts. */
  lemma {:induction false} MergedTextsNonEmpty(lines: seq<LineInfo>, i: nat)
    requires i <= |lines|
    requires forall k :: 0 <= k < |lines| ==> lines[k].text != [] && IsTrimmed(lines[k].text)
    ensures forall l :: l in MergeFrom(lines, i) ==> l.text != [] && IsTrimmed(l.text)
    decreases |lines| - i
  {
    if i < |lines| {
      var e := RunEnd(lines, i);
      MergedTextsNonEmpty(lines, e);
      JoinedTextIsTrimmed(lines[i..e]);
      assert MergeFrom(lines, i) == [Combine(lines[i..e])] + MergeFrom(lines, e);
    }
  }

  /** Two lines that join, merged: one line with both texts separated by a
      space, the larger size and the first line's bold flag, page and y. */
  lemma TwoLinesMerge(a: LineInfo, b: LineInfo)
    requires Absorbs(a, a.y, b)
    ensures MergeSpec([a, b]) == [LineInfo(Trim(a.text + " " + b.text), RealMax(a.fontSize, b.fontSize), a.isBold, a.page, a.y)]
  {
    var lines := [a, b];
    assert ScanEnd(lines, 0, 2, b.y) == 2;
    assert RunEnd(lines, 0) == 2;
    assert MergeFrom(lines, 2) == [];
    assert lines[0..2] == lines && lines[..1] == [a];
    assert JoinTexts(lines) == a.text + " " + b.text;
    assert MaxSize(lines) == RealMax(a.fontSize, b.fontSize);
    assert MergeFrom(lines, 0) == [Combine(lines)];
  }

  /** Sizes are compared with the base line, not with the previous line: a
      third line within 1.0 of the second but not of the first starts a new
      merged line. */
  lemma SizeComparedWithBase()
    ensures var a := LineInfo("a", 10.0, false, 1, 100.0);
      var b := LineInfo("b", 10.9, false, 1, 110.0);
      var c := LineInfo("c", 11.8, false, 1, 120.0);
      && Absorbs(b, b.y, c)
      && |MergeSpec([a, b, c])| == 2
  {
    var a := LineInfo("a", 10.0, false, 1, 100.0);
    var b := LineInfo("b", 10.9, false, 1, 110.0);
    var c := LineInfo("c", 11.8, false, 1, 120.0);
    var lines := [a, b, c];
    assert ScanEnd(lines, 0, 2, b.y) == 2;
    assert RunEnd(lines, 0) == 2;
    assert RunEnd(lines, 2) == 3;
    assert MergeFrom(lines, 3) == [];
  }

  /** Absorbing `lines[j]` appends its text after a space and takes the
      larger size. */
  lemma RunSnoc(lines: seq<LineInfo>, i: nat, j: nat)
    requires i < j < |lines|
    ensures JoinTexts(lines[i..j + 1]) == JoinTexts(lines[i..j]) + " " + lines[j].text
    ensures MaxSize(lines[i..j + 1]) == RealMax(MaxSize(lines[i..j]), lines[j].fontSize)
  {
    assert lines[i..j + 1][..j - i] == lines[i..j];
  }

  /** The inner loop of the merger: starting from the base line `lines[i]`,
      absorb following lines while they stay within 1.0 of the base size, on
      the base page and within 40 of the last absorbed y. */
  method ExtendRun(lines: seq<LineInfo>, i: nat) returns (j: nat, txt: string, maxSize: real)
    requires i < |lines|
    ensures j == RunEnd(lines, i)
    ensures txt == JoinTexts(lines[i..j]) && maxSize == MaxSize(lines[i..j])
  {
    var base := lines[i];
    txt, maxSize := base.text, base.fontSize;
    var y := base.y;
    var pg := base.page;
    j := i + 1;
    while j < |lines|
      invariant i < j <= |lines|
      invariant ScanEnd(lines, i, j, y) == RunEnd(lines, i)
      invariant txt == JoinTexts(lines[i..j]) && maxSize == MaxSize(lines[i..j])
    {
      var nxt := lines[j];
      if Within(nxt.fontSize, base.fontSize, SizeTolerance) && nxt.page == pg && Within(nxt.y, y, LineGap) {
        RunSnoc(lines, i, j);
        txt := txt + " " + nxt.text;
        maxSize := RealMax(maxSize, nxt.fontSize);
        y := nxt.y;
        j := j + 1;
      } else {
        break;
      }
    }
  }

  /** One step of the merging loop: emitting the combined run at `i` and
      moving past it keeps the merged prefix followed by the rest equal. */
  lemma CombineSlice(lines: seq<LineInfo>, i: nat, j: nat)
    requires i < j <= |lines|
    ensures Combine(lines[i..j]) ==
      LineInfo(Trim(JoinTexts(lines[i..j])), MaxSize(lines[i..j]), lines[i].isBold, lines[i].page, lines[i].y)
  {
  }

  lemma MergeFromStep(lines: seq<LineInfo>, i: nat, merged: seq<LineInfo>, line: LineInfo)
    requires i < |lines| && line == Combine(lines[i..RunEnd(lines, i)])
    ensures merged + MergeFrom(lines, i) == (merged + [line]) + MergeFrom(lines, RunEnd(lines, i))
  {
    var rest := MergeFrom(lines, RunEnd(lines, i));
    assert MergeFrom(lines, i) == [line] + rest;
    assert merged + ([line] + rest) == (merged + [line]) + rest;
  }

  /** The merging loop of the source: `i` walks the base lines, each merged
      line covering the run its base absorbs. */
  method MergeLines(lines: seq<LineInfo>) returns (merged: seq<LineInfo>)
    ensures merged == MergeSpec(lines)
  {
    merged := [];
    var i := 0;
    while i < |lines|
      invariant 0 <= i <= |lines|
      invariant merged + MergeFrom(lines, i) == MergeFrom(lines, 0)
    {
      var base := lines[i];
      var j, txt, maxSize := ExtendRun(lines, i);
      var line := LineInfo(Trim(txt), maxSize, base.isBold, base.page, base.y);
      CombineSlice(lines, i, j);
      MergeFromStep(lines, i, merged, line);
      merged := merged + [line];
      i := j;
    }
    assert merged + [] == merged;
  }
}
