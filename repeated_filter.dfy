/** The repeated-line filter: a text seen three or more times on pages 1 to 4
    is a running header or footer, and every line with that text is removed
    from the whole document. */
module RepeatedFilter {
  import opened Records
  import opened Acquisition

  /** The texts whose count reaches the repeat threshold. */
  function RepeatedTexts(freq: map<string, nat>): set<string>
  {
    set t | t in freq && freq[t] >= RepeatThreshold
  }

  /** The lines of `lines` whose text is not in `removed`, in their order. */
  function Without(lines: seq<LineInfo>, removed: set<string>): (r: seq<LineInfo>)
    ensures |r| <= |lines|
  {
    if lines == [] then []
    else
      var l := lines[|lines| - 1];
      Without(lines[..|lines| - 1], removed) + (if l.text in removed then [] else [l])
  }

  /** Filtering distributes over concatenation: surviving lines keep their
      relative order. */
  lemma {:induction false} WithoutAppend(xs: seq<LineInfo>, ys: seq<LineInfo>, removed: set<string>)
    ensures Without(xs + ys, removed) == Without(xs, removed) + Without(ys, removed)
  {
    if ys == [] {
      assert xs + ys == xs;
    } else {
      var front := ys[..|ys| - 1];
      assert (xs + ys)[..|xs + ys| - 1] == xs + front;
      WithoutAppend(xs, front, removed);
    }
  }

  /** A line survives exactly when it was there and its text is not removed. */
  lemma {:induction false} WithoutMembers(lines: seq<LineInfo>, removed: set<string>, l: LineInfo)
    ensures l in Without(lines, removed) <==> l in lines && l.text !in removed
  {
    if lines != [] {
      var front := lines[..|lines| - 1];
      WithoutMembers(front, removed, l);
      assert lines == front + [lines[|lines| - 1]];
    }
  }

  /** Removed texts are exactly those seen at least three times on pages 1 to 4. */
  lemma RepeatedExactly(lines: seq<LineInfo>, t: string)
    ensures t in RepeatedTexts(FreqMap(lines)) <==> EarlyCount(lines, t) >= RepeatThreshold
  {
    FreqMapCounts(lines, t);
  }

  /** After the filter, a line of the document survives exactly when its text
      occurs fewer than three times on pages 1 to 4; lines on later pages are
      removed too when their text repeats early. */
  lemma HeadersFootersRemoved(allLines: seq<LineInfo>, l: LineInfo)
    ensures l in Without(allLines, RepeatedTexts(FreqMap(allLines))) <==>
            l in allLines && EarlyCount(allLines, l.text) < RepeatThreshold
  {
    WithoutMembers(allLines, RepeatedTexts(FreqMap(allLines)), l);
    RepeatedExactly(allLines, l.text);
  }

  /** The pass over the frequency map that collects the running headers and
      footers. */
  method CollectHeadersFooters(lineFreq: map<string, nat>) returns (headersFooters: set<string>)
    ensures forall t :: t in headersFooters <==> t in lineFreq && lineFreq[t] >= RepeatThreshold
    ensures headersFooters == RepeatedTexts(lineFreq)
  {
    headersFooters := {};
    var pending := lineFreq.Keys;
    while pending != {}
      invariant pending <= lineFreq.Keys
      invariant forall t :: t in headersFooters <==>
        t in lineFreq && t !in pending && lineFreq[t] >= RepeatThreshold
      decreases pending
    {
      var line :| line in pending;
      if lineFreq[line] >= RepeatThreshold {
        headersFooters := headersFooters + {line};
      }
      pending := pending - {line};
    }
  }

  /** The loop that copies every line whose text is not a header or footer. */
  method DropHeadersFooters(allLines: seq<LineInfo>, headersFooters: set<string>) returns (lines: seq<LineInfo>)
    ensures lines == Without(allLines, headersFooters)
  {
    lines := [];
    var i := 0;
    while i < |allLines|
      invariant 0 <= i <= |allLines|
      invariant lines == Without(allLines[..i], headersFooters)
    {
      assert allLines[..i + 1][..i] == allLines[..i];
      if allLines[i].text !in headersFooters {
        lines := lines + [allLines[i]];
      }
      i := i + 1;
    }
    assert allLines[..i] == allLines;
  }
}
