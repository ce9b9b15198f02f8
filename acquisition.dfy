/** Line acquisition: the body of the text stripper's `writeString` callback
    and the three accumulators it fills (all lines, the frequency of each text
    on the early pages, and the paragraph font sizes). */
module Acquisition {
  import opened Records
  import opened Text

  /** The largest glyph size, starting from 0 as the source's loop does. */
  function MaxGlyphSize(gs: seq<Glyph>): (m: real)
    ensures m >= 0.0
    ensures forall k :: 0 <= k < |gs| ==> gs[k].fontSize <= m
    ensures m == 0.0 || exists k :: 0 <= k < |gs| && gs[k].fontSize == m
  {
    if gs == [] then 0.0 else RealMax(MaxGlyphSize(gs[..|gs| - 1]), gs[|gs| - 1].fontSize)
  }

  /** Some glyph of the run is set in a bold font. */
  predicate AnyBold(gs: seq<Glyph>)
  {
    exists k :: 0 <= k < |gs| && gs[k].bold
  }

  /** What `writeString` does with one run: drop it, keep it as a line, or fail
      (reading the first glyph of a non-blank run without glyphs throws). */
  datatype RunOutcome = Skipped | Kept(line: LineInfo) | Failed

  function AcceptRun(run: TextRun): RunOutcome
  {
    var line := Trim(run.text);
    if line == [] then Skipped
    else if run.positions == [] then Failed
    else
      var y := run.positions[0].y;
      if y < TopMargin || y > BottomMargin then Skipped
      else Kept(LineInfo(line, MaxGlyphSize(run.positions), AnyBold(run.positions), run.page, y))
  }

  /** A run is kept exactly when its trimmed text is non-empty and its first
      glyph lies between the margins; a kept line carries the trimmed text, the
      largest glyph size, the bold flag of any glyph, the page and the first
      glyph's y. */
  lemma AcceptRunMeaning(run: TextRun)
    ensures AcceptRun(run).Failed? <==> Trim(run.text) != [] && run.positions == []
    ensures AcceptRun(run).Kept? <==>
      Trim(run.text) != [] && run.positions != [] && TopMargin <= run.positions[0].y <= BottomMargin
    ensures AcceptRun(run).Kept? ==>
      var l := AcceptRun(run).line;
      && l.text == Trim(run.text) && l.text != [] && IsTrimmed(l.text)
      && l.page == run.page && l.y == run.positions[0].y
      && (l.isBold <==> exists k :: 0 <= k < |run.positions| && run.positions[k].bold)
      && (forall k :: 0 <= k < |run.positions| ==> run.positions[k].fontSize <= l.fontSize)
      && l.fontSize >= 0.0
      && (l.fontSize == 0.0 || exists k :: 0 <= k < |run.positions| && run.positions[k].fontSize == l.fontSize)
  {
  }

  lemma KeptRun(run: TextRun)
    requires Trim(run.text) != [] && run.positions != []
    requires TopMargin <= run.positions[0].y <= BottomMargin
    ensures AcceptRun(run) ==
      Kept(LineInfo(Trim(run.text), MaxGlyphSize(run.positions), AnyBold(run.positions), run.page, run.positions[0].y))
  {
  }

  /** The lines kept from `runs`, or None when a run makes the callback fail. */
  function CollectLines(runs: seq<TextRun>): Option<seq<LineInfo>>
  {
    if runs == [] then Some([])
    else
      match CollectLines(runs[..|runs| - 1])
      case None => None
      case Some(lines) => AfterRun(lines, AcceptRun(runs[|runs| - 1]))
  }

  /** The line list after one more run went through `writeString`. */
  function AfterRun(lines: seq<LineInfo>, o: RunOutcome): Option<seq<LineInfo>>
  {
    match o
    case Skipped => Some(lines)
    case Kept(l) => Some(lines + [l])
    case Failed => None
  }

  lemma CollectStep(runs: seq<TextRun>, i: nat)
    requires i < |runs| && CollectLines(runs[..i]).Some?
    ensures CollectLines(runs[..i + 1]) == AfterRun(CollectLines(runs[..i]).value, AcceptRun(runs[i]))
  {
    assert runs[..i + 1][..i] == runs[..i];
  }

  /** Once a run has failed, the whole document has failed. */
  lemma {:induction false} CollectFailureSticks(runs: seq<TextRun>, n: nat)
    requires n <= |runs| && CollectLines(runs[..n]) == None
    ensures CollectLines(runs) == None
    decreases |runs| - n
  {
    if n < |runs| {
      assert runs[..n + 1][..n] == runs[..n];
      CollectFailureSticks(runs, n + 1);
    } else {
      assert runs[..n] == runs;
    }
  }

  /** A run that did not fail extends the collected prefix by its outcome. */
  lemma CollectAdvance(runs: seq<TextRun>, i: nat, before: seq<LineInfo>, after: seq<LineInfo>)
    requires i < |runs| && CollectLines(runs[..i]) == Some(before)
    requires AfterRun(before, AcceptRun(runs[i])) == Some(after)
    ensures CollectLines(runs[..i + 1]) == Some(after)
  {
    CollectStep(runs, i);
  }

  lemma CollectWhole(runs: seq<TextRun>)
    ensures CollectLines(runs[..|runs|]) == CollectLines(runs)
  {
    assert runs[..|runs|] == runs;
  }

  /** A failing run makes the whole document fail. */
  lemma FailureAtFails(runs: seq<TextRun>, k: nat)
    requires k < |runs| && AcceptRun(runs[k]).Failed?
    ensures CollectLines(runs) == None
  {
    if CollectLines(runs[..k]).Some? {
      CollectStep(runs, k);
      CollectFailureSticks(runs, k + 1);
    } else {
      CollectFailureSticks(runs, k);
    }
  }

  /** Without a failing run, the first n runs are collected. */
  lemma {:induction false} NoFailureCollects(runs: seq<TextRun>, n: nat)
    requires n <= |runs|
    requires forall k :: 0 <= k < |runs| ==> !AcceptRun(runs[k]).Failed?
    ensures CollectLines(runs[..n]).Some?
  {
    if n > 0 {
      NoFailureCollects(runs, n - 1);
      CollectStep(runs, n - 1);
    }
  }

  /** Extraction fails exactly when some run has text but no glyphs. */
  lemma CollectFailsIff(runs: seq<TextRun>)
    ensures CollectLines(runs).None? <==> exists k :: 0 <= k < |runs| && AcceptRun(runs[k]).Failed?
  {
    if exists k :: 0 <= k < |runs| && AcceptRun(runs[k]).Failed? {
      var k :| 0 <= k < |runs| && AcceptRun(runs[k]).Failed?;
      FailureAtFails(runs, k);
    } else {
      NoFailureCollects(runs, |runs|);
      assert runs[..|runs|] == runs;
    }
  }

  /** Every collected line is non-empty, trimmed and inside the margins. */
  predicate WellFormedLine(l: LineInfo)
  {
    l.text != [] && IsTrimmed(l.text) && TopMargin <= l.y <= BottomMargin
  }

  lemma {:induction false} CollectedLinesWellFormed(runs: seq<TextRun>)
    requires CollectLines(runs).Some?
    ensures forall l :: l in CollectLines(runs).value ==> WellFormedLine(l)
  {
    if runs != [] {
      var front := runs[..|runs| - 1];
      var o := AcceptRun(runs[|runs| - 1]);
      assert CollectLines(front).Some?;
      CollectedLinesWellFormed(front);
      assert CollectLines(runs) == AfterRun(CollectLines(front).value, o);
      if o.Kept? {
        KeptWellFormed(runs[|runs| - 1]);
      }
    }
  }

  lemma KeptWellFormed(run: TextRun)
    requires AcceptRun(run).Kept?
    ensures WellFormedLine(AcceptRun(run).line)
  {
  }


  /** Occurrences of text `t` on pages 1 to 4. */
  function EarlyCount(lines: seq<LineInfo>, t: string): nat
  {
    if lines == [] then 0
    else
      var l := lines[|lines| - 1];
      EarlyCount(lines[..|lines| - 1], t) + (if l.text == t && l.page <= EarlyPages then 1 else 0)
  }

  /** `lineFreq` after every line of `lines` went through `writeString`. */
  function FreqMap(lines: seq<LineInfo>): map<string, nat>
  {
    if lines == [] then map[]
    else
      var m := FreqMap(lines[..|lines| - 1]);
      var l := lines[|lines| - 1];
      if l.page <= EarlyPages then Increment(m, l.text) else m
  }

  /** Both folds after one more line. */
  lemma FoldsSnoc(lines: seq<LineInfo>, l: LineInfo)
    ensures FreqMap(lines + [l]) == if l.page <= EarlyPages then Increment(FreqMap(lines), l.text) else FreqMap(lines)
    ensures ParaSizes(lines + [l]) == if |l.text| > ParagraphLength then ParaSizes(lines) + {l.fontSize} else ParaSizes(lines)
  {
    assert (lines + [l])[..|lines|] == lines;
  }

  /** One more occurrence of `t`: its count goes up by one, from zero when
      it was absent. */
  function Increment(m: map<string, nat>, t: string): map<string, nat>
  {
    m[t := (if t in m then m[t] else 0) + 1]
  }

  /** The frequency map holds exactly the texts seen on pages 1 to 4, each with
      its number of occurrences there. */
  lemma {:induction false} FreqMapCounts(lines: seq<LineInfo>, t: string)
    ensures t in FreqMap(lines) <==> EarlyCount(lines, t) > 0
    ensures t in FreqMap(lines) ==> FreqMap(lines)[t] == EarlyCount(lines, t)
  {
    if lines != [] {
      FreqMapCounts(lines[..|lines| - 1], t);
    }
  }

  /** `paragraphFontSizes` after every line of `lines` went through `writeString`. */
  function ParaSizes(lines: seq<LineInfo>): set<real>
  {
    if lines == [] then {}
    else
      var l := lines[|lines| - 1];
      ParaSizes(lines[..|lines| - 1]) + (if |l.text| > ParagraphLength then {l.fontSize} else {})
  }

  /** A size is a paragraph size exactly when some line longer than 100
      characters has it. */
  lemma {:induction false} ParaSizesExactly(lines: seq<LineInfo>, s: real)
    ensures s in ParaSizes(lines) <==>
            exists k :: 0 <= k < |lines| && |lines[k].text| > ParagraphLength && lines[k].fontSize == s
  {
    if lines != [] {
      var prefix := lines[..|lines| - 1];
      ParaSizesExactly(prefix, s);
      if s in ParaSizes(prefix) {
        var k :| 0 <= k < |prefix| && |prefix[k].text| > ParagraphLength && prefix[k].fontSize == s;
        assert lines[k] == prefix[k];
      }
      if exists k :: 0 <= k < |lines| && |lines[k].text| > ParagraphLength && lines[k].fontSize == s {
        var k :| 0 <= k < |lines| && |lines[k].text| > ParagraphLength && lines[k].fontSize == s;
        if k < |prefix| {
          assert prefix[k] == lines[k];
        }
      }
    }
  }

  lemma MaxGlyphSizeSnoc(gs: seq<Glyph>, i: nat)
    requires i < |gs|
    ensures MaxGlyphSize(gs[..i + 1]) == RealMax(MaxGlyphSize(gs[..i]), gs[i].fontSize)
    ensures AnyBold(gs[..i + 1]) == (AnyBold(gs[..i]) || gs[i].bold)
  {
    assert gs[..i + 1][..i] == gs[..i];
  }

  /** The loop over the run's glyphs: the largest size (never below 0) and
      whether any glyph is bold. */
  method ScanGlyphs(positions: seq<Glyph>) returns (maxFontSize: real, isBold: bool)
    ensures maxFontSize == MaxGlyphSize(positions)
    ensures isBold <==> exists k :: 0 <= k < |positions| && positions[k].bold
  {
    maxFontSize, isBold := 0.0, false;
    var i := 0;
    while i < |positions|
      invariant 0 <= i <= |positions|
      invariant maxFontSize == MaxGlyphSize(positions[..i])
      invariant isBold == AnyBold(positions[..i])
    {
      MaxGlyphSizeSnoc(positions, i);
      maxFontSize := RealMax(maxFontSize, positions[i].fontSize);
      if positions[i].bold {
        isBold := true;
      }
      i := i + 1;
    }
    assert positions[..i] == positions;
  }

  /** The three accumulators filled by the text stripper's callback. */
  class LineCollector {
    var allLines: seq<LineInfo>
    var lineFreq: map<string, nat>
    var paragraphFontSizes: set<real>

    /** The frequency map and the paragraph sizes are those of the lines kept. */
    ghost predicate Valid()
      reads this
    {
      lineFreq == FreqMap(allLines) && paragraphFontSizes == ParaSizes(allLines)
    }

    constructor ()
      ensures Valid() && allLines == []
    {
      allLines, lineFreq, paragraphFontSizes := [], map[], {};
    }

    /** The body of `writeString` for one run; `ok` is false where the
        source throws, and then nothing has changed. */
    method WriteString(run: TextRun) returns (ok: bool)
      requires Valid()
      modifies this
      ensures Valid()
      ensures ok <==> !AcceptRun(run).Failed?
      ensures ok ==> AfterRun(old(allLines), AcceptRun(run)) == Some(allLines)
      ensures !ok ==> allLines == old(allLines)
    {
      ok := true;
      var line := Trim(run.text);
      if line == [] {
        assert AcceptRun(run) == Skipped;
        return;
      }
      if run.positions == [] {
        assert AcceptRun(run) == Failed;
        ok := false;
        return;
      }
      var y := run.positions[0].y;
      if y < TopMargin || y > BottomMargin {
        assert AcceptRun(run) == Skipped;
        return;
      }
      var maxFontSize, isBold := ScanGlyphs(run.positions);
      assert isBold == AnyBold(run.positions);
      var l := LineInfo(line, maxFontSize, isBold, run.page, y);
      KeptRun(run);
      Record(l);
    }

    /** The kept line joins `allLines`, registers its size as a paragraph size
        when it is longer than 100 characters, and is counted when it is on
        pages 1 to 4. */
    method Record(l: LineInfo)
      requires Valid()
      modifies this
      ensures Valid()
      ensures allLines == old(allLines) + [l]
    {
      FoldsSnoc(allLines, l);
      allLines := allLines + [l];
      if |l.text| > ParagraphLength {
        paragraphFontSizes := paragraphFontSizes + {l.fontSize};
      }
      if l.page <= EarlyPages {
        lineFreq := Increment(lineFreq, l.text);
      }
    }
  }

  /** What the accumulators hold once every run has been delivered. */
  datatype Collected = Collected(allLines: seq<LineInfo>, lineFreq: map<string, nat>, paragraphFontSizes: set<real>)

  /** Deliver every run of the document, in order, to one collector; None
      when the callback fails on some run. */
  method CollectRuns(runs: seq<TextRun>) returns (r: Option<Collected>)
    ensures CollectLines(runs).None? ==> r.None?
    ensures CollectLines(runs).Some? ==>
      var lines := CollectLines(runs).value;
      r == Some(Collected(lines, FreqMap(lines), ParaSizes(lines)))
  {
    var collector := new LineCollector();
    var i := 0;
    while i < |runs|
      invariant 0 <= i <= |runs|
      invariant collector.Valid()
      invariant CollectLines(runs[..i]) == Some(collector.allLines)
    {
      ghost var before := collector.allLines;
      var ok := collector.WriteString(runs[i]);
      if !ok {
        FailureAtFails(runs, i);
        return None;
      }
      CollectAdvance(runs, i, before, collector.allLines);
      i := i + 1;
    }
    CollectWhole(runs);
    r := Some(Collected(collector.allLines, collector.lineFreq, collector.paragraphFontSizes));
  }
}
