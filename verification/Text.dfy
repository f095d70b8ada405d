/** JavaScript's `String.prototype.trim`, which the send handler applies to the
    text box before testing it for emptiness and before posting it. */
module Text {

  /** The characters ECMAScript's `trim` removes: the WhiteSpace code points
      (tab, vertical tab, form feed, the byte-order mark and every space
      separator) and the LineTerminator code points. */
  predicate IsSpace(c: char) {
    || c == '\t' || c == '\n' || c == '\U{B}' || c == '\U{C}' || c == '\r'
    || c == ' ' || c == '\U{A0}' || c == '\U{1680}'
    || ('\U{2000}' <= c <= '\U{200A}')
    || c == '\U{2028}' || c == '\U{2029}' || c == '\U{202F}' || c == '\U{205F}'
    || c == '\U{3000}' || c == '\U{FEFF}'
  }

  /** Every character of `s` from `lo` up to (not including) `hi` is a space. */
  predicate SpacesBetween(s: string, lo: int, hi: int)
    requires 0 <= lo <= hi <= |s|
  {
    forall i :: lo <= i < hi ==> IsSpace(s[i])
  }

  predicate AllSpace(s: string) {
    SpacesBetween(s, 0, |s|)
  }

  /** Drops the leading spaces: the result is the suffix that starts at the
      first non-space character. */
  function TrimStart(s: string): (r: string)
    ensures |r| <= |s| && r == s[|s| - |r|..]
    ensures SpacesBetween(s, 0, |s| - |r|)
    ensures r != [] ==> !IsSpace(r[0])
    decreases |s|
  {
    if s != [] && IsSpace(s[0]) then
      var t := TrimStart(s[1..]);
      assert forall i :: 1 <= i < |s| - |t| ==> s[i] == s[1..][i - 1];
      t
    else
      s
  }

  /** Drops the trailing spaces: the result is the prefix that ends at the last
      non-space character. */
  function TrimEnd(s: string): (r: string)
    ensures |r| <= |s| && r == s[..|r|]
    ensures SpacesBetween(s, |r|, |s|)
    ensures r != [] ==> !IsSpace(r[|r| - 1])
    decreases |s|
  {
    if s != [] && IsSpace(s[|s| - 1]) then
      var t := TrimEnd(s[..|s| - 1]);
      assert forall i :: |t| <= i < |s| - 1 ==> s[i] == s[..|s| - 1][i];
      t
    else
      s
  }

  /** `r` is the part of `s` left after cutting `i` leading spaces and every
      trailing space. */
  ghost predicate SliceAfterSpaces(s: string, r: string, i: int) {
    && 0 <= i <= |s| - |r|
    && r == s[i..i + |r|]
    && SpacesBetween(s, 0, i)
    && SpacesBetween(s, i + |r|, |s|)
  }

  /** `s.trim()`: the slice of `s` between its leading and trailing spaces. */
  function Trim(s: string): (r: string)
    ensures exists i :: SliceAfterSpaces(s, r, i)
    ensures r != [] ==> !IsSpace(r[0]) && !IsSpace(r[|r| - 1])
  {
    var t := TrimStart(s);
    TrimmedSlice(s, t, TrimEnd(t));
    TrimEnd(t)
  }

  lemma TrimmedSlice(s: string, t: string, r: string)
    requires |t| <= |s| && t == s[|s| - |t|..] && SpacesBetween(s, 0, |s| - |t|)
    requires t != [] ==> !IsSpace(t[0])
    requires |r| <= |t| && r == t[..|r|] && SpacesBetween(t, |r|, |t|)
    ensures SliceAfterSpaces(s, r, |s| - |t|)
    ensures r != [] ==> !IsSpace(r[0])
  {
    var i := |s| - |t|;
    assert forall k :: 0 <= k < |t| ==> t[k] == s[i + k];
    assert r == s[i..i + |r|];
    assert forall k :: i + |r| <= k < |s| ==> s[k] == t[k - i];
    if r != [] {
      assert r[0] == t[0];
    }
  }

  /** A string trims to the empty string exactly when it is all spaces, so the
      send handler's `!inputText.trim()` test rejects exactly the blank inputs. */
  lemma TrimEmptyIffAllSpace(s: string)
    ensures Trim(s) == "" <==> AllSpace(s)
  {
    var r := Trim(s);
    var i :| SliceAfterSpaces(s, r, i);
    if r != [] {
      assert r[0] == s[i];
    }
  }

  /** A string that neither starts nor ends with a space is its own trim. */
  lemma TrimOfBordered(s: string)
    requires s != [] && !IsSpace(s[0]) && !IsSpace(s[|s| - 1])
    ensures Trim(s) == s
  {
    assert TrimStart(s) == s;
    assert TrimEnd(s) == s;
  }

  /** Trimming twice is trimming once: a posted verse is already in trimmed form. */
  lemma TrimIdempotent(s: string)
    ensures Trim(Trim(s)) == Trim(s)
  {
    var r := Trim(s);
    if r != [] {
      TrimOfBordered(r);
    }
  }
}
