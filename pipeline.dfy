/** The whole extraction for one document: acquisition, the repeated-line
    filter, the font-level classifier, the line merger and the outline
    builder, run in that order. */
module Pipeline {
  import opened Records
  import opened Text
  import opened Acquisition
  import opened RepeatedFilter
  import opened FontLevels
  import opened Merger
  import opened OutlineBuilder

  /** The collected lines that survive the repeated-line filter. */
  function FilteredLines(allLines: seq<LineInfo>): seq<LineInfo>
  {
    Without(allLines, RepeatedTexts(FreqMap(allLines)))
  }

  /** The level map and paragraph sizes the classifier derives from the
      collected lines. */
  ghost function FontsOf(allLines: seq<LineInfo>): Fonts
  {
    var para := ParaSizes(allLines);
    Fonts(LevelMapSpec(CandidateSizes(FilteredLines(allLines), para)), para)
  }

  /** The document extracted from `runs`, or None when acquisition fails. */
  ghost function OutlineOf(runs: seq<TextRun>): Option<OutlineDocument>
  {
    match CollectLines(runs)
    case None => None
    case Some(allLines) => Some(BuildSpec(FontsOf(allLines), MergeSpec(FilteredLines(allLines))))
  }

  /** The extraction, stage by stage, as the source runs it. */
  method ExtractFontInfo(runs: seq<TextRun>) returns (r: Option<OutlineDocument>)
    ensures r == OutlineOf(runs)
  {
    var collected := CollectRuns(runs);
    if collected.None? {
      return None;
    }
    var allLines := collected.value.allLines;
    var paragraphFontSizes := collected.value.paragraphFontSizes;
    var headersFooters := CollectHeadersFooters(collected.value.lineFreq);
    var lines := DropHeadersFooters(allLines, headersFooters);
    var fontLevelMap := ClassifyFontSizes(lines, paragraphFontSizes);
    var merged := MergeLines(lines);
    var output := BuildOutline(Fonts(fontLevelMap, paragraphFontSizes), merged);
    r := Some(output);
  }

  /** Extraction fails exactly when some run has visible text but no glyph
      positions. */
  lemma ExtractionFailsIff(runs: seq<TextRun>)
    ensures OutlineOf(runs).None? <==> exists k :: 0 <= k < |runs| && AcceptRun(runs[k]).Failed?
  {
    CollectFailsIff(runs);
  }

  /** A document without a title has an empty outline. */
  lemma UntitledHasNoOutline(runs: seq<TextRun>)
    requires OutlineOf(runs).Some? && OutlineOf(runs).value.title.None?
    ensures OutlineOf(runs).value.outline == []
  {
    var allLines := CollectLines(runs).value;
    var merged := MergeSpec(FilteredLines(allLines));
    NoTitleNoOutline(FontsOf(allLines), merged, |merged|);
  }

  /** Every line handed to the builder has non-empty trimmed text, so the
      builder's final emptiness test never rejects a line. */
  lemma MergedLinesHaveText(runs: seq<TextRun>)
    requires CollectLines(runs).Some?
    ensures forall l :: l in MergeSpec(FilteredLines(CollectLines(runs).value)) ==>
      l.text != [] && IsTrimmed(l.text)
  {
    var allLines := CollectLines(runs).value;
    var lines := FilteredLines(allLines);
    CollectedLinesWellFormed(runs);
    forall k | 0 <= k < |lines|
      ensures lines[k].text != [] && IsTrimmed(lines[k].text)
    {
      WithoutMembers(allLines, RepeatedTexts(FreqMap(allLines)), lines[k]);
    }
    MergedTextsNonEmpty(lines, 0);
  }

  /** No line whose text occurs three or more times on pages 1 to 4 reaches
      the classifier or the merger. */
  lemma RepeatedLinesNeverReachMerger(runs: seq<TextRun>, l: LineInfo)
    requires CollectLines(runs).Some?
    requires EarlyCount(CollectLines(runs).value, l.text) >= RepeatThreshold
    ensures l !in FilteredLines(CollectLines(runs).value)
  {
    HeadersFootersRemoved(CollectLines(runs).value, l);
  }

  /** Two title-sized lines "A" and "B" at the top of page 1, and the text
      "A B" once on each of pages 2 to 4. */
  function RepeatedTitleLines(): seq<LineInfo>
  {
    [LineInfo("A", 24.0, false, 1, 100.0), LineInfo("B", 24.0, false, 1, 110.0),
     LineInfo("A B", 10.0, false, 2, 300.0), LineInfo("A B", 10.0, false, 3, 300.0),
     LineInfo("A B", 10.0, false, 4, 300.0)]
  }

  /** The title-sized lines "A" and "B" of `RepeatedTitleLines`. */
  function TitleParts(): seq<LineInfo>
  {
    RepeatedTitleLines()[..2]
  }

  lemma {:induction false} RepeatedTitleCount(t: string)
    requires t in {"A", "B", "A B"}
    ensures EarlyCount(RepeatedTitleLines(), t) == if t == "A B" then 3 else 1
  {
    var all := RepeatedTitleLines();
    assert |"A"| == 1 && |"B"| == 1 && |"A B"| == 3 && "A" != "B";
    var p1, p2, p3, p4 := all[..1], all[..2], all[..3], all[..4];
    assert all[..4] == p4 && p4[..3] == p3 && p3[..2] == p2 && p2[..1] == p1 && p1[..0] == [];
    assert EarlyCount(p1, t) == if t == "A" then 1 else 0;
    assert EarlyCount(p2, t) == if t == "A B" then 0 else 1;
    assert EarlyCount(p3, t) == 1;
    assert EarlyCount(p4, t) == if t == "A B" then 2 else 1;
  }

  lemma RepeatedTitleFiltered()
    ensures FilteredLines(RepeatedTitleLines()) == TitleParts()
  {
    var all := RepeatedTitleLines();
    var removed := RepeatedTexts(FreqMap(all));
    RepeatedTitleCount("A B");
    RepeatedTitleCount("A");
    RepeatedTitleCount("B");
    RepeatedExactly(all, "A B");
    RepeatedExactly(all, "A");
    RepeatedExactly(all, "B");
    var p1, p2, p3, p4 := all[..1], all[..2], all[..3], all[..4];
    assert all[..4] == p4 && p4[..3] == p3 && p3[..2] == p2 && p2[..1] == p1 && p1[..0] == [];
    assert Without(p1, removed) == p1;
    assert Without(p2, removed) == p2;
    assert Without(p3, removed) == p2;
    assert Without(p4, removed) == p2;
  }

  lemma RepeatedTitleNoParagraphs()
    ensures ParaSizes(RepeatedTitleLines()) == {}
  {
    var all := RepeatedTitleLines();
    var p1, p2, p3, p4 := all[..1], all[..2], all[..3], all[..4];
    assert all[..4] == p4 && p4[..3] == p3 && p3[..2] == p2 && p2[..1] == p1 && p1[..0] == [];
    assert ParaSizes(p1) == {};
    assert ParaSizes(p2) == {};
    assert ParaSizes(p3) == {};
    assert ParaSizes(p4) == {};
  }

  lemma TitlePartsMerge()
    ensures MergeSpec(TitleParts()) == [LineInfo("A B", 24.0, false, 1, 100.0)]
  {
    var lines := TitleParts();
    var a, b := lines[0], lines[1];
    assert ScanEnd(lines, 0, 2, b.y) == 2;
    assert RunEnd(lines, 0) == 2;
    assert lines[0..2] == [a, b];
    assert [a, b][..1] == [a];
    assert JoinTexts([a, b]) == "A B";
    TrimIdentity("A B");
  }

  /** The filter removes lines, not texts: "A B" occurs three times on pages
      1 to 4, so its lines are dropped, yet the merger joins "A" and "B" into
      "A B", which becomes the title. */
  lemma RepeatedTextCanBeTitle()
    ensures EarlyCount(RepeatedTitleLines(), "A B") >= RepeatThreshold
    ensures BuildSpec(FontsOf(RepeatedTitleLines()), MergeSpec(FilteredLines(RepeatedTitleLines()))).title
      == Some("A B")
  {
    RepeatedTitleCount("A B");
    RepeatedTitleFiltered();
    RepeatedTitleLevels();
    TitlePartsMerge();
    var f := Fonts(map[24.0 := 0], {});
    var l := LineInfo("A B", 24.0, false, 1, 100.0);
    assert TitleLine(f, l);
    SingleTitleLine(f, l);
  }

  /** A lone title line is the document's title. */
  lemma SingleTitleLine(f: Fonts, l: LineInfo)
    requires TitleLine(f, l)
    ensures BuildSpec(f, [l]).title == Some(l.text)
  {
    DocumentTitle(f, [l], 0);
    assert JoinerIndices(f, [l], 0, 1) == [];
    assert l.text + [] == l.text;
  }

  /** The classifier sees no paragraph size and one candidate, 24, which
      becomes the Title size. */
  lemma RepeatedTitleLevels()
    ensures FontsOf(RepeatedTitleLines()) == Fonts(map[24.0 := 0], {})
  {
    RepeatedTitleFiltered();
    RepeatedTitleNoParagraphs();
    var lines := TitleParts();
    var cands := {24.0};
    assert lines[0].fontSize == 24.0 && lines[1].fontSize == 24.0 && |lines| == 2;
    assert AboveAll(lines[0].fontSize, {});
    assert 24.0 in CandidateSizes(lines, {});
    assert CandidateSizes(lines, {}) == cands;
    assert (set t | t in cands && t > 24.0) == {};
  }

  /** Paragraph sizes are registered from every collected line, including
      lines the repeated-line filter later removes. */
  lemma ParagraphSizesIgnoreFilter(runs: seq<TextRun>, l: LineInfo)
    requires CollectLines(runs).Some?
    requires l in CollectLines(runs).value && |l.text| > ParagraphLength
    ensures l.fontSize in FontsOf(CollectLines(runs).value).paragraphFontSizes
  {
    var allLines := CollectLines(runs).value;
    ParaSizesExactly(allLines, l.fontSize);
  }
}
