/** The title and outline builder: one forward pass over the merged lines
    that anchors and extends the title, then emits a heading for every line
    that passes the gates and is confirmed by a later line of its page. */
module OutlineBuilder {
  import opened Records
  import opened FontLevels

  /** What the classifier hands the builder. */
  datatype Fonts = Fonts(fontLevelMap: map<real, Level>, paragraphFontSizes: set<real>)

  /** A bold line over 100 characters: emphasised body text, skipped. */
  predicate BoldParagraph(l: LineInfo)
  {
    l.isBold && |l.text| > ParagraphLength
  }

  function LineLevel(f: Fonts, l: LineInfo): Level
  {
    LevelOf(f.fontLevelMap, l.fontSize)
  }

  /** A line the builder treats as part of the title: not skipped, at Title
      level, on pages 1 to 4. */
  predicate TitleLine(f: Fonts, l: LineInfo)
  {
    !BoldParagraph(l) && LineLevel(f, l) == TitleLevel && l.page <= EarlyPages
  }

  /** The title found so far: its text, the anchor's size and page. */
  datatype TitleState = NoTitle | Anchored(text: string, fontSize: real, page: int)

  /** The title after the builder has seen `merged[..n]`. */
  function TitleAfter(f: Fonts, merged: seq<LineInfo>, n: nat): TitleState
    requires n <= |merged|
  {
    if n == 0 then NoTitle
    else
      var st := TitleAfter(f, merged, n - 1);
      var l := merged[n - 1];
      if !TitleLine(f, l) then st
      else
        match st
        case NoTitle => Anchored(l.text, l.fontSize, l.page)
        case Anchored(t, s, p) =>
          if Within(l.fontSize, s, SizeTolerance) && l.page == p then Anchored(t + " " + l.text, s, p) else st
  }

  /** Forward confirmation of the candidate `merged[i]`, scanning from `k`:
      some line before the first page change has a paragraph size or a
      strictly deeper level. */
  function Confirmed(f: Fonts, merged: seq<LineInfo>, i: nat, k: nat): bool
    requires i < |merged| && k <= |merged|
    decreases |merged| - k
  {
    if k == |merged| || merged[k].page != merged[i].page then false
    else if merged[k].fontSize in f.paragraphFontSizes then true
    else if LineLevel(f, merged[k]) > LineLevel(f, merged[i]) then true
    else Confirmed(f, merged, i, k + 1)
  }

  /** Whether the builder emits an outline entry for `merged[i]`. */
  predicate Emits(f: Fonts, merged: seq<LineInfo>, i: nat)
    requires i < |merged|
  {
    var l := merged[i];
    var st := TitleAfter(f, merged, i);
    && !BoldParagraph(l)
    && !TitleLine(f, l)
    && st.Anchored? && l.page >= st.page
    && l.fontSize !in f.paragraphFontSizes
    && Confirmed(f, merged, i, i + 1)
    && l.text != []
  }

  /** The positions of `merged[..n]` that give an outline entry. */
  function EmittedIndices(f: Fonts, merged: seq<LineInfo>, n: nat): (idx: seq<nat>)
    requires n <= |merged|
    ensures forall k :: 0 <= k < |idx| ==> idx[k] < n
  {
    if n == 0 then []
    else EmittedIndices(f, merged, n - 1) + (if Emits(f, merged, n - 1) then [n - 1] else [])
  }

  function EntryAt(f: Fonts, merged: seq<LineInfo>, i: nat): OutlineEntry
    requires i < |merged|
  {
    OutlineEntry(LevelNames[LineLevel(f, merged[i])], merged[i].text, merged[i].page)
  }

  /** The entries for the positions `idx`, in the order of `idx`. */
  function EntriesAt(f: Fonts, merged: seq<LineInfo>, idx: seq<nat>): (r: seq<OutlineEntry>)
    requires forall k :: 0 <= k < |idx| ==> idx[k] < |merged|
    ensures |r| == |idx|
    ensures forall k :: 0 <= k < |idx| ==> r[k] == EntryAt(f, merged, idx[k])
  {
    if idx == [] then []
    else EntriesAt(f, merged, idx[..|idx| - 1]) + [EntryAt(f, merged, idx[|idx| - 1])]
  }

  /** The document the builder produces from the merged lines. */
  function BuildSpec(f: Fonts, merged: seq<LineInfo>): OutlineDocument
  {
    var st := TitleAfter(f, merged, |merged|);
    OutlineDocument(if st.Anchored? then Some(st.text) else None,
                    EntriesAt(f, merged, EmittedIndices(f, merged, |merged|)))
  }

  /** A title is found exactly when some line before position n is a title
      line. */
  lemma {:induction false} TitleFoundIff(f: Fonts, merged: seq<LineInfo>, n: nat)
    requires n <= |merged|
    ensures TitleAfter(f, merged, n).Anchored? <==> exists i :: 0 <= i < n && TitleLine(f, merged[i])
  {
    if n > 0 {
      TitleFoundIff(f, merged, n - 1);
    }
  }

  /** The first title line anchors the title: the title keeps its size and
      page, and its text starts with the anchor's text. */
  lemma {:induction false} TitleAnchoredAtFirst(f: Fonts, merged: seq<LineInfo>, a: nat, n: nat)
    requires a < n <= |merged| && TitleLine(f, merged[a])
    requires forall i :: 0 <= i < a ==> !TitleLine(f, merged[i])
    ensures var st := TitleAfter(f, merged, n);
      && st.Anchored? && st.fontSize == merged[a].fontSize && st.page == merged[a].page
      && |merged[a].text| <= |st.text| && st.text[..|merged[a].text|] == merged[a].text
  {
    if n == a + 1 {
      TitleFoundIff(f, merged, a);
    } else {
      TitleAnchoredAtFirst(f, merged, a, n - 1);
    }
  }

  /** A title line after the anchor `merged[a]` that extends the title: on
      the anchor's page and within 1.0 of the anchor's size. */
  predicate JoinsTitle(f: Fonts, merged: seq<LineInfo>, a: nat, j: nat)
    requires a < |merged| && j < |merged|
  {
    TitleLine(f, merged[j]) && Within(merged[j].fontSize, merged[a].fontSize, SizeTolerance)
    && merged[j].page == merged[a].page
  }

  /** The positions after the anchor `a` and before `n` that extend the title. */
  function JoinerIndices(f: Fonts, merged: seq<LineInfo>, a: nat, n: nat): (idx: seq<nat>)
    requires a < n <= |merged|
    ensures forall k :: 0 <= k < |idx| ==> a < idx[k] < n
    decreases n
  {
    if n == a + 1 then []
    else JoinerIndices(f, merged, a, n - 1) + (if JoinsTitle(f, merged, a, n - 1) then [n - 1] else [])
  }

  /** The texts at `idx`, each preceded by a space. */
  function SpacedTexts(merged: seq<LineInfo>, idx: seq<nat>): string
    requires forall k :: 0 <= k < |idx| ==> idx[k] < |merged|
  {
    if idx == [] then []
    else SpacedTexts(merged, idx[..|idx| - 1]) + " " + merged[idx[|idx| - 1]].text
  }

  /** The title anchored at `a`, as the builder has it after `merged[..n]`:
      the anchor's text followed by the text of every line that extends it. */
  function TitleJoined(f: Fonts, merged: seq<LineInfo>, a: nat, n: nat): string
    requires a < n <= |merged|
  {
    merged[a].text + SpacedTexts(merged, JoinerIndices(f, merged, a, n))
  }

  /** The joining positions are strictly increasing, and a position joins
      exactly when it lies after the anchor and extends the title. */
  lemma {:induction false} JoinerIndicesExact(f: Fonts, merged: seq<LineInfo>, a: nat, n: nat)
    requires a < n <= |merged|
    ensures Increasing(JoinerIndices(f, merged, a, n))
    ensures forall j: nat :: j in JoinerIndices(f, merged, a, n) <==> a < j < n && JoinsTitle(f, merged, a, j)
    decreases n
  {
    if n > a + 1 {
      JoinerIndicesExact(f, merged, a, n - 1);
      var prev := JoinerIndices(f, merged, a, n - 1);
      var idx := JoinerIndices(f, merged, a, n);
      assert idx == prev + (if JoinsTitle(f, merged, a, n - 1) then [n - 1] else []);
      assert Increasing(idx) by {
        forall x, y | 0 <= x < y < |idx|
          ensures idx[x] < idx[y]
        {
          if y < |prev| {
            assert idx[x] == prev[x] && idx[y] == prev[y] && prev[x] < prev[y];
          } else {
            assert idx[x] == prev[x] && prev[x] < n - 1 && idx[y] == n - 1;
          }
        }
      }
    }
  }

  lemma SpacedTextsSnoc(merged: seq<LineInfo>, idx: seq<nat>, j: nat)
    requires forall k :: 0 <= k < |idx| ==> idx[k] < |merged|
    requires j < |merged|
    ensures SpacedTexts(merged, idx + [j]) == SpacedTexts(merged, idx) + " " + merged[j].text
  {
    assert (idx + [j])[..|idx|] == idx;
  }

  /** One more line seen with the title already anchored. */
  lemma TitleStep(f: Fonts, merged: seq<LineInfo>, n: nat, t: string, size: real, page: int)
    requires 0 < n <= |merged| && TitleAfter(f, merged, n - 1) == Anchored(t, size, page)
    ensures var l := merged[n - 1];
      TitleAfter(f, merged, n) ==
        if TitleLine(f, l) && Within(l.fontSize, size, SizeTolerance) && l.page == page
        then Anchored(t + " " + l.text, size, page) else Anchored(t, size, page)
  {
  }

  /** The title anchored at the first title line `merged[a]` is the anchor's
      text followed, space-separated, by the text of every later title line
      on the anchor's page within 1.0 of the anchor's size; other title lines
      are dropped. */
  lemma {:induction false} TitleTextJoined(f: Fonts, merged: seq<LineInfo>, a: nat, n: nat)
    requires a < n <= |merged| && TitleLine(f, merged[a])
    requires forall i :: 0 <= i < a ==> !TitleLine(f, merged[i])
    ensures TitleAfter(f, merged, n) ==
      Anchored(TitleJoined(f, merged, a, n), merged[a].fontSize, merged[a].page)
    decreases n
  {
    if n == a + 1 {
      TitleFoundIff(f, merged, a);
      assert merged[a].text + [] == merged[a].text;
    } else {
      TitleTextJoined(f, merged, a, n - 1);
      TitleStep(f, merged, n, TitleJoined(f, merged, a, n - 1), merged[a].fontSize, merged[a].page);
      TitleJoinedStep(f, merged, a, n);
    }
  }

  lemma TitleJoinedStep(f: Fonts, merged: seq<LineInfo>, a: nat, n: nat)
    requires a + 1 < n <= |merged|
    ensures TitleJoined(f, merged, a, n) ==
      if JoinsTitle(f, merged, a, n - 1) then TitleJoined(f, merged, a, n - 1) + " " + merged[n - 1].text
      else TitleJoined(f, merged, a, n - 1)
  {
    var prev := JoinerIndices(f, merged, a, n - 1);
    if JoinsTitle(f, merged, a, n - 1) {
      SpacedTextsSnoc(merged, prev, n - 1);
      assert JoinerIndices(f, merged, a, n) == prev + [n - 1];
    } else {
      assert JoinerIndices(f, merged, a, n) == prev + [];
      assert prev + [] == prev;
    }
  }

  /** The document's title, when the first title line is `merged[a]`. */
  lemma DocumentTitle(f: Fonts, merged: seq<LineInfo>, a: nat)
    requires a < |merged| && TitleLine(f, merged[a])
    requires forall i :: 0 <= i < a ==> !TitleLine(f, merged[i])
    ensures BuildSpec(f, merged).title == Some(TitleJoined(f, merged, a, |merged|))
  {
    TitleTextJoined(f, merged, a, |merged|);
  }

  /** Once anchored, the title's page and size never change. */
  lemma {:induction false} AnchorStable(f: Fonts, merged: seq<LineInfo>, m: nat, n: nat)
    requires m <= n <= |merged| && TitleAfter(f, merged, m).Anchored?
    ensures TitleAfter(f, merged, n).Anchored?
    ensures TitleAfter(f, merged, n).page == TitleAfter(f, merged, m).page
    ensures TitleAfter(f, merged, n).fontSize == TitleAfter(f, merged, m).fontSize
    decreases n - m
  {
    if m < n {
      AnchorStable(f, merged, m, n - 1);
    }
  }

  predicate Increasing(idx: seq<nat>)
  {
    forall a, b :: 0 <= a < b < |idx| ==> idx[a] < idx[b]
  }

  /** The emitted positions are strictly increasing (entries follow the
      merged lines' order), and a position is emitted exactly when it passes
      every gate. */
  lemma {:induction false} EmittedIndicesExact(f: Fonts, merged: seq<LineInfo>, n: nat)
    requires n <= |merged|
    ensures Increasing(EmittedIndices(f, merged, n))
    ensures forall i: nat :: i in EmittedIndices(f, merged, n) <==> i < n && Emits(f, merged, i)
  {
    if n > 0 {
      EmittedIndicesExact(f, merged, n - 1);
      var prev := EmittedIndices(f, merged, n - 1);
      var idx := EmittedIndices(f, merged, n);
      assert idx == prev + (if Emits(f, merged, n - 1) then [n - 1] else []);
      assert Increasing(idx) by {
        forall a, b | 0 <= a < b < |idx|
          ensures idx[a] < idx[b]
        {
          if b < |prev| {
            assert idx[a] == prev[a] && idx[b] == prev[b] && prev[a] < prev[b];
          } else {
            assert idx[a] == prev[a] && prev[a] < n - 1 && idx[b] == n - 1;
          }
        }
      }
    }
  }

  /** Heading extraction is gated on the title: with no title there is no
      outline. */
  lemma {:induction false} NoTitleNoOutline(f: Fonts, merged: seq<LineInfo>, n: nat)
    requires n <= |merged| && TitleAfter(f, merged, n) == NoTitle
    ensures EmittedIndices(f, merged, n) == []
  {
    if n > 0 {
      assert TitleAfter(f, merged, n - 1) == NoTitle;
      NoTitleNoOutline(f, merged, n - 1);
    }
  }

  /** Every emitted line passes the gates against the final title: it comes
      after the title was found and not before the title's page, it is not a
      paragraph size, not a bold paragraph, not a title line, has text, and a
      later line of its page confirms it. */
  lemma EmittedGates(f: Fonts, merged: seq<LineInfo>, i: nat)
    requires i in EmittedIndices(f, merged, |merged|)
    ensures i < |merged|
    ensures var st := TitleAfter(f, merged, |merged|);
      && st.Anchored? && merged[i].page >= st.page
      && TitleAfter(f, merged, i).Anchored?
      && merged[i].fontSize !in f.paragraphFontSizes
      && !BoldParagraph(merged[i]) && !TitleLine(f, merged[i])
      && merged[i].text != []
      && Confirmed(f, merged, i, i + 1)
  {
    EmittedIndicesExact(f, merged, |merged|);
    AnchorStable(f, merged, i, |merged|);
  }

  /** Line `m` confirms the candidate `merged[i]` for a scan from `k`: it
      and every line from `k` up to it are on the candidate's page, and it
      has a paragraph size or a strictly deeper level. */
  predicate ConfirmsFrom(f: Fonts, merged: seq<LineInfo>, i: nat, k: nat, m: nat)
    requires i < |merged|
  {
    && k <= m < |merged|
    && (forall j :: k <= j <= m ==> merged[j].page == merged[i].page)
    && (merged[m].fontSize in f.paragraphFontSizes || LineLevel(f, merged[m]) > LineLevel(f, merged[i]))
  }

  /** Confirmation holds exactly when some later line confirms the
      candidate before the first page change. */
  lemma {:induction false} ConfirmedIff(f: Fonts, merged: seq<LineInfo>, i: nat, k: nat)
    requires i < |merged| && k <= |merged|
    ensures Confirmed(f, merged, i, k) <==> exists m: nat :: ConfirmsFrom(f, merged, i, k, m)
    decreases |merged| - k
  {
    if k == |merged| || merged[k].page != merged[i].page {
    } else if merged[k].fontSize in f.paragraphFontSizes || LineLevel(f, merged[k]) > LineLevel(f, merged[i]) {
      assert ConfirmsFrom(f, merged, i, k, k);
    } else {
      ConfirmedIff(f, merged, i, k + 1);
      if Confirmed(f, merged, i, k) {
        var m: nat :| ConfirmsFrom(f, merged, i, k + 1, m);
        assert ConfirmsFrom(f, merged, i, k, m);
      } else if exists m: nat :: ConfirmsFrom(f, merged, i, k, m) {
        var m: nat :| ConfirmsFrom(f, merged, i, k, m);
        assert ConfirmsFrom(f, merged, i, k + 1, m);
      }
    }
  }

  /** The last merged line of a page is never emitted: nothing after it on
      its page can confirm it. */
  lemma LastOnPageNeverEmitted(f: Fonts, merged: seq<LineInfo>, i: nat)
    requires i < |merged|
    requires i + 1 == |merged| || merged[i + 1].page != merged[i].page
    ensures !Emits(f, merged, i)
    ensures i !in EmittedIndices(f, merged, |merged|)
  {
    EmittedIndicesExact(f, merged, |merged|);
  }

  /** An outline entry labelled "Title" can only come from a page after
      the fourth: on pages 1 to 4 a Title-level line joins the title
      instead. */
  lemma TitleEntriesAreLate(f: Fonts, merged: seq<LineInfo>, k: nat)
    requires k < |BuildSpec(f, merged).outline|
    requires BuildSpec(f, merged).outline[k].level == LevelNames[TitleLevel]
    ensures BuildSpec(f, merged).outline[k].page > EarlyPages
  {
    var idx := EmittedIndices(f, merged, |merged|);
    EmittedIndicesExact(f, merged, |merged|);
    assert idx[k] in idx;
    var l := merged[idx[k]];
    assert BuildSpec(f, merged).outline[k] == EntryAt(f, merged, idx[k]);
    assert LevelNames[LineLevel(f, l)] == LevelNames[TitleLevel];
    assert LineLevel(f, l) == TitleLevel;
  }

  /** A one-page document: a title line at size 24, then two size-18
      headings each followed by a size-12 paragraph. */
  function ExampleLines(para1: string, para2: string): seq<LineInfo>
  {
    [LineInfo("My Document Title", 24.0, false, 1, 100.0),
     LineInfo("Introduction", 18.0, false, 1, 200.0),
     LineInfo(para1, 12.0, false, 1, 220.0),
     LineInfo("Background", 18.0, false, 1, 400.0),
     LineInfo(para2, 12.0, false, 1, 420.0)]
  }

  /** Size 24 is the Title level, 18 is H1, and 12 is the paragraph size. */
  function ExampleFonts(): Fonts
  {
    Fonts(map[24.0 := 0, 18.0 := 1], {12.0})
  }

  lemma ExampleTitle(para1: string, para2: string, n: nat)
    requires 1 <= n <= 5
    ensures TitleAfter(ExampleFonts(), ExampleLines(para1, para2), n) == Anchored("My Document Title", 24.0, 1)
  {
    if n > 1 {
      ExampleTitle(para1, para2, n - 1);
    }
  }

  lemma ExampleEmitted(para1: string, para2: string)
    ensures EmittedIndices(ExampleFonts(), ExampleLines(para1, para2), 5) == [1, 3]
  {
    var f := ExampleFonts();
    var merged := ExampleLines(para1, para2);
    ExampleTitle(para1, para2, 1);
    ExampleTitle(para1, para2, 2);
    ExampleTitle(para1, para2, 3);
    ExampleTitle(para1, para2, 4);
    assert !Emits(f, merged, 0);
    assert EmittedIndices(f, merged, 1) == [];
    assert Confirmed(f, merged, 1, 2);
    assert Emits(f, merged, 1);
    assert EmittedIndices(f, merged, 2) == [1];
    assert !Emits(f, merged, 2);
    assert EmittedIndices(f, merged, 3) == [1];
    assert Confirmed(f, merged, 3, 4);
    assert Emits(f, merged, 3);
    assert EmittedIndices(f, merged, 4) == [1, 3];
    assert !Emits(f, merged, 4);
  }

  /** The title is the first line and both headings are confirmed by the
      paragraph after them. */
  lemma TitleAndTwoHeadings(para1: string, para2: string)
    requires |para1| == 151 && |para2| == 140
    ensures BuildSpec(ExampleFonts(), ExampleLines(para1, para2)) ==
      OutlineDocument(Some("My Document Title"),
                      [OutlineEntry("H1", "Introduction", 1), OutlineEntry("H1", "Background", 1)])
  {
    ExampleTitle(para1, para2, 5);
    ExampleEmitted(para1, para2);
  }

  /** The inner scan of the builder, with its early exits. */
  method ConfirmHeading(f: Fonts, merged: seq<LineInfo>, i: nat) returns (isValid: bool)
    requires i < |merged|
    ensures isValid == Confirmed(f, merged, i, i + 1)
  {
    isValid := false;
    var li := merged[i];
    var curIdx := LineLevel(f, li);
    for k := i + 1 to |merged|
      invariant !isValid
      invariant Confirmed(f, merged, i, i + 1) == Confirmed(f, merged, i, k)
    {
      var next := merged[k];
      if next.page != li.page {
        break;
      }
      if next.fontSize in f.paragraphFontSizes {
        isValid := true;
        break;
      }
      var nextIdx := LineLevel(f, next);
      if nextIdx > curIdx {
        isValid := true;
        break;
      }
    }
  }

  /** The title variables of the source agree with the title state. */
  ghost predicate TitleVariables(st: TitleState, titleFound: bool, title: Option<string>, titleFontSize: real, titlePage: int)
  {
    && (titleFound <==> st.Anchored?)
    && (!titleFound ==> title == None)
    && (titleFound ==> title == Some(st.text) && titleFontSize == st.fontSize && titlePage == st.page)
  }

  /** The builder's forward pass. */
  method BuildOutline(f: Fonts, merged: seq<LineInfo>) returns (output: OutlineDocument)
    ensures output == BuildSpec(f, merged)
  {
    var title: Option<string> := None;
    var titleFontSize: real := -1.0;
    var titlePage: int := 0;
    var titleFound := false;
    var outline: seq<OutlineEntry> := [];
    for i := 0 to |merged|
      invariant TitleVariables(TitleAfter(f, merged, i), titleFound, title, titleFontSize, titlePage)
      invariant outline == EntriesAt(f, merged, EmittedIndices(f, merged, i))
    {
      var li := merged[i];
      var text := li.text;
      if li.isBold && |text| > ParagraphLength {
        continue;
      }
      var level := LineLevel(f, li);
      if level == TitleLevel && li.page <= EarlyPages {
        if !titleFound {
          title := Some(text);
          titleFontSize := li.fontSize;
          titlePage := li.page;
          titleFound := true;
        } else if Within(li.fontSize, titleFontSize, SizeTolerance) && li.page == titlePage {
          title := Some(title.value + " " + text);
        }
        continue;
      }
      if !titleFound || li.page < titlePage {
        continue;
      }
      if li.fontSize in f.paragraphFontSizes {
        continue;
      }
      var isValid := ConfirmHeading(f, merged, i);
      if isValid && text != [] {
        outline := outline + [OutlineEntry(LevelNames[level], text, li.page)];
      }
    }
    output := OutlineDocument(title, outline);
  }
}
