/** Blank-string tests as the forum performs them with `String.prototype.trim`
    (ECMA-262, section "String.prototype.trim": strip WhiteSpace and
    LineTerminator code points from both ends). */
module Text {

  /** The WhiteSpace and LineTerminator code points of ECMA-262: TAB, VT, FF,
      ZWNBSP, every space separator (category Zs), LF, CR, LS and PS. */
  predicate IsWhiteSpace(c: char) {
    || c == '\t' || c == '\U{0B}' || c == '\U{0C}' || c == '\U{FEFF}'
    || c == ' ' || c == '\U{A0}' || c == '\U{1680}'
    || ('\U{2000}' <= c <= '\U{200A}')
    || c == '\U{202F}' || c == '\U{205F}' || c == '\U{3000}'
    || c == '\n' || c == '\r' || c == '\U{2028}' || c == '\U{2029}'
  }

  /** `s` with its leading white space removed: a suffix of `s` that does not
      start with white space, everything cut off being white space. */
  function TrimStart(s: string): (r: string)
    ensures |r| <= |s| && r == s[|s| - |r|..]
    ensures forall i :: 0 <= i < |s| - |r| ==> IsWhiteSpace(s[i])
    ensures r != [] ==> !IsWhiteSpace(r[0])
  {
    if s != [] && IsWhiteSpace(s[0]) then TrimStart(s[1..]) else s
  }

  /** `s` with its trailing white space removed: a prefix of `s` that does not
      end with white space, everything cut off being white space. */
  function TrimEnd(s: string): (r: string)
    ensures |r| <= |s| && r == s[..|r|]
    ensures forall i :: |r| <= i < |s| ==> IsWhiteSpace(s[i])
    ensures r != [] ==> !IsWhiteSpace(r[|r| - 1])
  {
    if s != [] && IsWhiteSpace(s[|s| - 1]) then TrimEnd(s[..|s| - 1]) else s
  }

  /** `s.trim()`. */
  function Trim(s: string): (r: string)
    ensures |r| <= |s|
    ensures r != [] ==> !IsWhiteSpace(r[0]) && !IsWhiteSpace(r[|r| - 1])
  {
    var t := TrimStart(s);
    assert TrimEnd(t) != [] ==> TrimEnd(t)[0] == t[0];
    TrimEnd(t)
  }

  /** `!s.trim()`: the string holds nothing but white space, so trimming
      leaves the empty, falsy string (see BlankIffTrimEmpty). */
  predicate IsBlank(s: string) {
    s == [] || (IsWhiteSpace(s[0]) && IsBlank(s[1..]))
  }

  /** Every character of a blank string is white space, and conversely. */
  lemma {:induction false} BlankIffAllWhiteSpace(s: string)
    ensures IsBlank(s) <==> forall i :: 0 <= i < |s| ==> IsWhiteSpace(s[i])
  {
    if s != [] {
      BlankIffAllWhiteSpace(s[1..]);
      if forall i :: 0 <= i < |s| ==> IsWhiteSpace(s[i]) {
        assert forall i :: 0 <= i < |s| - 1 ==> IsWhiteSpace(s[1..][i]) by {
          forall i | 0 <= i < |s| - 1 ensures IsWhiteSpace(s[1..][i]) { assert s[1..][i] == s[i + 1]; }
        }
      }
    }
  }

  /** The guard `!s.trim()` holds exactly for blank strings. */
  lemma BlankIffTrimEmpty(s: string)
    ensures IsBlank(s) <==> Trim(s) == ""
  {
    BlankIffAllWhiteSpace(s);
    var t := TrimStart(s);
    assert t != [] ==> t[0] == s[|s| - |t|];
    assert TrimEnd(t) == [] ==> forall i :: 0 <= i < |t| ==> IsWhiteSpace(t[i]);
  }

  /** `trim()` cuts white space, and only white space, from both ends: with
      `t` the string after its leading white space is cut, it keeps the slice
      of `s` that starts where `t` does, and everything of `s` before and
      after that slice is white space. */
  lemma TrimIsSlice(s: string, t: string, r: string)
    requires t == TrimStart(s) && r == Trim(s)
    ensures |s| - |t| + |r| <= |s|
    ensures r == s[|s| - |t|..|s| - |t| + |r|]
    ensures forall i :: 0 <= i < |s| - |t| ==> IsWhiteSpace(s[i])
    ensures forall i :: |s| - |t| + |r| <= i < |s| ==> IsWhiteSpace(s[i])
  {
    assert r == TrimEnd(t);
    PrefixOfSuffix(s, t, r, IsWhiteSpace);
  }

  /** A prefix `r` of a suffix `t` of `s` is a slice of `s`, and whatever
      follows `r` in `t` follows it in `s`. */
  lemma PrefixOfSuffix<T>(s: seq<T>, t: seq<T>, r: seq<T>, p: T -> bool)
    requires |t| <= |s| && t == s[|s| - |t|..]
    requires |r| <= |t| && r == t[..|r|]
    requires forall i :: |r| <= i < |t| ==> p(t[i])
    ensures r == s[|s| - |t|..|s| - |t| + |r|]
    ensures forall i :: |s| - |t| + |r| <= i < |s| ==> p(s[i])
  {
    var a := |s| - |t|;
    forall i | a + |r| <= i < |s| ensures p(s[i]) {
      assert t[i - a] == s[i];
    }
  }
}
