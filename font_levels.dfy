/** The font-level classifier: the sizes strictly above every paragraph size
    are ranked from largest to smallest and labelled Title, H1, ..., H5, every
    rank past the fifth also being H5. */
module FontLevels {
  import opened Records

  /** `size` is strictly larger than every paragraph size (vacuously so when
      there are none). */
  predicate AboveAll(size: real, para: set<real>)
  {
    forall p :: p in para ==> size > p
  }

  /** The heading-candidate sizes: sizes of surviving lines strictly larger
      than every paragraph size. */
  ghost function CandidateSizes(lines: seq<LineInfo>, para: set<real>): set<real>
  {
    set k | 0 <= k < |lines| && AboveAll(lines[k].fontSize, para) :: lines[k].fontSize
  }

  /** The loop that fills `nonParaSizes`. */
  method NonParagraphSizes(lines: seq<LineInfo>, para: set<real>) returns (nonParaSizes: set<real>)
    ensures forall s :: s in nonParaSizes <==>
      AboveAll(s, para) && exists k :: 0 <= k < |lines| && lines[k].fontSize == s
    ensures nonParaSizes == CandidateSizes(lines, para)
  {
    nonParaSizes := {};
    var i := 0;
    while i < |lines|
      invariant 0 <= i <= |lines|
      invariant forall s :: s in nonParaSizes <==>
        AboveAll(s, para) && exists k :: 0 <= k < i && lines[k].fontSize == s
    {
      if forall p | p in para :: !(lines[i].fontSize <= p) {
        nonParaSizes := nonParaSizes + {lines[i].fontSize};
      }
      i := i + 1;
    }
    forall s | s in CandidateSizes(lines, para)
      ensures s in nonParaSizes
    {
      var k :| 0 <= k < |lines| && AboveAll(lines[k].fontSize, para) && lines[k].fontSize == s;
    }
    forall s | s in nonParaSizes
      ensures s in CandidateSizes(lines, para)
    {
      var k :| 0 <= k < |lines| && lines[k].fontSize == s;
      assert AboveAll(lines[k].fontSize, para);
    }
  }

  function Elements(r: seq<real>): set<real>
  {
    set x | x in r
  }

  predicate StrictlyDescending(r: seq<real>)
  {
    forall i, j :: 0 <= i < j < |r| ==> r[i] > r[j]
  }

  lemma NonEmptyHasElement(s: set<real>)
    requires s != {}
    ensures exists x :: x in s
  {
    if forall x :: x !in s {
      assert false;
    }
  }

  /** Every non-empty finite set of sizes has a largest element. */
  lemma {:induction false} HasMaximum(s: set<real>, x: real)
    requires x in s
    ensures exists m :: m in s && forall y :: y in s ==> y <= m
    decreases |s|
  {
    var rest := s - {x};
    if rest == {} {
      forall y | y in s
        ensures y <= x
      {
        assert y !in rest;
      }
    } else {
      NonEmptyHasElement(rest);
      var z :| z in rest;
      HasMaximum(rest, z);
      var m :| m in rest && forall y :: y in rest ==> y <= m;
      var w := RealMax(x, m);
      forall y | y in s
        ensures y <= w
      {
        if y != x {
          assert y in rest;
        }
      }
      assert w in s;
    }
  }

  /** Moving the largest pending size to the end of the sorted prefix keeps
      the prefix strictly descending and above every pending size, and keeps
      every size in exactly one of the two. */
  lemma SelectStep(sizes: set<real>, sorted: seq<real>, pending: set<real>, m: real)
    requires StrictlyDescending(sorted)
    requires forall x :: x in sizes <==> x in sorted || x in pending
    requires forall x, k :: x in pending && 0 <= k < |sorted| ==> sorted[k] > x
    requires m in pending && forall x :: x in pending ==> x <= m
    ensures StrictlyDescending(sorted + [m])
    ensures forall x :: x in sizes <==> x in sorted + [m] || x in pending - {m}
    ensures forall x, k :: x in pending - {m} && 0 <= k < |sorted + [m]| ==> (sorted + [m])[k] > x
    ensures |pending - {m}| == |pending| - 1
  {
    var next := sorted + [m];
    forall x, k | x in pending - {m} && 0 <= k < |next|
      ensures next[k] > x
    {
      if k < |sorted| {
        assert next[k] == sorted[k];
      }
    }
  }

  /** The candidate sizes as a list sorted in reverse order: the same
      sizes, each once, from largest to smallest. */
  method SortDescending(sizes: set<real>) returns (sorted: seq<real>)
    ensures StrictlyDescending(sorted)
    ensures forall x :: x in sorted <==> x in sizes
    ensures |sorted| == |sizes|
  {
    sorted := [];
    var pending := sizes;
    while pending != {}
      invariant pending <= sizes
      invariant StrictlyDescending(sorted)
      invariant forall x :: x in sizes <==> x in sorted || x in pending
      invariant forall x, k :: x in pending && 0 <= k < |sorted| ==> sorted[k] > x
      invariant |sorted| + |pending| == |sizes|
      decreases |pending|
    {
      NonEmptyHasElement(pending);
      var some :| some in pending;
      HasMaximum(pending, some);
      var m :| m in pending && forall x :: x in pending ==> x <= m;
      SelectStep(sizes, sorted, pending, m);
      sorted := sorted + [m];
      pending := pending - {m};
    }
  }

  /** The number of candidate sizes strictly larger than `s`. */
  ghost function Rank(cands: set<real>, s: real): nat
  {
    |set t | t in cands && t > s|
  }

  /** The level for sorted position `i`: the position itself while it names
      a level, H5 beyond. */
  function LevelAt(i: nat): Level
  {
    if i < |LevelNames| then i else DeepestLevel
  }

  /** The level of each candidate size: its rank among the candidates, with
      every rank past the fifth collapsed into H5. */
  ghost function LevelMapSpec(cands: set<real>): map<real, Level>
  {
    map s | s in cands :: LevelAt(Rank(cands, s))
  }

  /** The level of a size: its entry in the map, H5 when it has none. */
  function LevelOf(fontLevelMap: map<real, Level>, size: real): Level
  {
    if size in fontLevelMap then fontLevelMap[size] else DeepestLevel
  }

  lemma {:induction false} DescendingDistinct(r: seq<real>)
    requires StrictlyDescending(r)
    ensures |set x | x in r| == |r|
  {
    if r != [] {
      var front := r[..|r| - 1];
      DescendingDistinct(front);
      assert Elements(r) == Elements(front) + {r[|r| - 1]};
    }
  }

  /** In a strictly descending list, the size at position i has exactly i
      larger sizes in the list. */
  lemma RankInSorted(r: seq<real>, i: nat)
    requires StrictlyDescending(r) && i < |r|
    ensures Rank(Elements(r), r[i]) == i
  {
    var elems := Elements(r);
    var above := set t | t in elems && t > r[i];
    forall t | t in above
      ensures t in r[..i]
    {
      var k :| 0 <= k < |r| && r[k] == t;
      assert k < i;
    }
    assert above == Elements(r[..i]);
    DescendingDistinct(r[..i]);
  }

  /** The loop that labels the sorted sizes. */
  method BuildLevelMap(sorted: seq<real>) returns (fontLevelMap: map<real, Level>)
    requires StrictlyDescending(sorted)
    ensures fontLevelMap == LevelMapSpec(Elements(sorted))
  {
    fontLevelMap := map[];
    var i := 0;
    while i < |sorted|
      invariant 0 <= i <= |sorted|
      invariant PositionsMapped(fontLevelMap, sorted, i)
    {
      PutPosition(fontLevelMap, sorted, i);
      fontLevelMap := fontLevelMap[sorted[i] := LevelAt(i)];
      i := i + 1;
    }
    PositionsMatchRanks(fontLevelMap, sorted);
  }

  /** The map holds exactly the first `n` sorted sizes, each at the level of
      its position. */
  ghost predicate PositionsMapped(m: map<real, Level>, sorted: seq<real>, n: nat)
    requires n <= |sorted|
  {
    && m.Keys == Elements(sorted[..n])
    && forall k :: 0 <= k < n ==> m[sorted[k]] == LevelAt(k)
  }

  lemma PutPosition(m: map<real, Level>, sorted: seq<real>, i: nat)
    requires StrictlyDescending(sorted) && i < |sorted| && PositionsMapped(m, sorted, i)
    ensures PositionsMapped(m[sorted[i] := LevelAt(i)], sorted, i + 1)
  {
    assert sorted[..i + 1] == sorted[..i] + [sorted[i]];
    forall k | 0 <= k < i
      ensures sorted[k] != sorted[i]
    {
      assert sorted[k] > sorted[i];
    }
  }

  /** Labelling positions equals labelling ranks. */
  lemma PositionsMatchRanks(m: map<real, Level>, sorted: seq<real>)
    requires StrictlyDescending(sorted) && PositionsMapped(m, sorted, |sorted|)
    ensures m == LevelMapSpec(Elements(sorted))
  {
    assert sorted[..|sorted|] == sorted;
    forall s | s in m
      ensures m[s] == LevelAt(Rank(Elements(sorted), s))
    {
      var k :| 0 <= k < |sorted| && sorted[k] == s;
      RankInSorted(sorted, k);
    }
  }


  /** The whole classifier: candidate sizes, sorted, then labelled. */
  method ClassifyFontSizes(lines: seq<LineInfo>, para: set<real>) returns (fontLevelMap: map<real, Level>)
    ensures fontLevelMap == LevelMapSpec(CandidateSizes(lines, para))
  {
    var nonParaSizes := NonParagraphSizes(lines, para);
    var sortedFontSizes := SortDescending(nonParaSizes);
    assert Elements(sortedFontSizes) == nonParaSizes;
    fontLevelMap := BuildLevelMap(sortedFontSizes);
  }

  /** Exactly the candidate sizes are mapped, and each of them is strictly
      larger than every paragraph size. */
  lemma MappedSizes(lines: seq<LineInfo>, para: set<real>, s: real)
    ensures s in LevelMapSpec(CandidateSizes(lines, para)) <==>
            AboveAll(s, para) && exists k :: 0 <= k < |lines| && lines[k].fontSize == s
  {
  }

  lemma SubsetCard(a: set<real>, b: set<real>)
    requires a <= b
    ensures |a| <= |b|
  {
    assert b == a + (b - a);
  }

  /** The largest candidate, and only it, is labelled "Title". */
  lemma TitleIsLargest(cands: set<real>, s: real)
    requires s in cands
    ensures LevelMapSpec(cands)[s] == TitleLevel <==> forall t :: t in cands ==> t <= s
  {
    var above := set t | t in cands && t > s;
    if above == {} {
      forall t | t in cands
        ensures t <= s
      {
        assert t !in above;
      }
    } else {
      var t :| t in above;
      assert |above| >= 1;
      assert !(t <= s);
    }
  }

  /** A larger size never gets a deeper level than a smaller one. */
  lemma LevelsMonotone(cands: set<real>, a: real, b: real)
    requires a in cands && b in cands && a >= b
    ensures LevelMapSpec(cands)[a] <= LevelMapSpec(cands)[b]
  {
    SubsetCard(set t | t in cands && t > a, set t | t in cands && t > b);
  }

  /** Above H5 the levels are strict: a larger size is strictly shallower. */
  lemma LevelsStrict(cands: set<real>, a: real, b: real)
    requires a in cands && b in cands && a > b
    requires LevelMapSpec(cands)[a] < DeepestLevel
    ensures LevelMapSpec(cands)[a] < LevelMapSpec(cands)[b]
  {
    var aboveA := set t | t in cands && t > a;
    var aboveB := set t | t in cands && t > b;
    SubsetCard(aboveA + {a}, aboveB);
  }

  /** A size ranked sixth or later is labelled H5. */
  lemma OverflowIsH5(cands: set<real>, s: real)
    requires s in cands && Rank(cands, s) >= |LevelNames|
    ensures LevelMapSpec(cands)[s] == DeepestLevel
  {
  }

  /** A size with no entry, such as a paragraph size, is looked up as H5. */
  lemma UnmappedIsH5(fontLevelMap: map<real, Level>, size: real)
    requires size !in fontLevelMap
    ensures LevelOf(fontLevelMap, size) == DeepestLevel
  {
  }

  /** Two candidate sizes, 24 and 18: the larger is the Title level, the
      smaller H1. */
  lemma TwoSizeLevels()
    ensures LevelMapSpec({24.0, 18.0}) == map[24.0 := 0, 18.0 := 1]
  {
    var cands := {24.0, 18.0};
    assert (set t | t in cands && t > 24.0) == {};
    assert (set t | t in cands && t > 18.0) == {24.0};
  }
}
