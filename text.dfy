/** Java's `String.trim()`: it removes every leading and trailing character
    whose code is at most U+0020 (space and the control characters). */
module Text {

  predicate IsBlank(c: char)
  {
    c <= ' '
  }

  /** Neither end of `s` is a blank character. */
  predicate IsTrimmed(s: string)
  {
    s == [] || (!IsBlank(s[0]) && !IsBlank(s[|s| - 1]))
  }

  function TrimStart(s: string): (r: string)
    ensures |r| <= |s| && r == s[|s| - |r|..]
    ensures forall k :: 0 <= k < |s| - |r| ==> IsBlank(s[k])
    ensures r == [] || !IsBlank(r[0])
  {
    if s != [] && IsBlank(s[0]) then TrimStart(s[1..]) else s
  }

  function TrimEnd(s: string): (r: string)
    ensures |r| <= |s| && r == s[..|r|]
    ensures forall k :: |r| <= k < |s| ==> IsBlank(s[k])
    ensures r == [] || !IsBlank(r[|r| - 1])
  {
    if s != [] && IsBlank(s[|s| - 1]) then TrimEnd(s[..|s| - 1]) else s
  }

  /** The longest infix of `s` that neither starts nor ends with a blank. */
  function Trim(s: string): (r: string)
    ensures IsTrimmed(r) && |r| <= |s|
    ensures TrimmedInfix(s, r)
    ensures (forall k :: 0 <= k < |s| ==> IsBlank(s[k])) <==> r == []
  {
    TrimEmpty(s);
    TrimShape(s);
    TrimInfix(s);
    TrimEnd(TrimStart(s))
  }

  /** `r` is what remains of `s` after cutting `i` blanks at the front and
      only blanks at the back. */
  predicate CutAt(s: string, r: string, i: nat)
  {
    i + |r| <= |s| && r == s[i..i + |r|]
    && (forall k :: 0 <= k < i ==> IsBlank(s[k]))
    && (forall k :: i + |r| <= k < |s| ==> IsBlank(s[k]))
  }

  /** `r` is `s` with a blank prefix and a blank suffix cut off. */
  ghost predicate TrimmedInfix(s: string, r: string)
  {
    exists i: nat :: CutAt(s, r, i)
  }

  lemma TrimInfix(s: string)
    ensures TrimmedInfix(s, TrimEnd(TrimStart(s)))
  {
    var a := TrimStart(s);
    var r := TrimEnd(a);
    var i := |s| - |a|;
    assert r == s[i..i + |r|];
    forall k | i + |r| <= k < |s|
      ensures IsBlank(s[k])
    {
      assert s[k] == a[k - i];
    }
    assert CutAt(s, r, i);
  }

  lemma TrimShape(s: string)
    ensures IsTrimmed(TrimEnd(TrimStart(s))) && |TrimEnd(TrimStart(s))| <= |s|
  {
    var a := TrimStart(s);
    var r := TrimEnd(a);
    if r != [] {
      assert r[0] == a[0];
    }
  }

  lemma TrimEmpty(s: string)
    ensures (forall k :: 0 <= k < |s| ==> IsBlank(s[k])) <==> TrimEnd(TrimStart(s)) == []
  {
    var a := TrimStart(s);
    if TrimEnd(a) != [] {
      assert !IsBlank(s[|s| - |a|]);
    }
  }

  /** Trimming a string that is already trimmed changes nothing. */
  lemma TrimIdentity(s: string)
    requires IsTrimmed(s)
    ensures Trim(s) == s
  {
  }
}
