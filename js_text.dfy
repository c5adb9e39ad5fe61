/**
  The part of JavaScript's string library the core relies on:
  String.prototype.trim, which strips the WhiteSpace and LineTerminator
  code points of the ECMAScript language specification (ECMA-262) from
  both ends of a string.
 */
module JsText {

  /** WhiteSpace (TAB, VT, FF, ZWNBSP and every Zs code point) and
      LineTerminator (LF, CR, LS, PS) as ECMA-262 defines them. */
  predicate IsWhiteSpace(c: char) {
    var n := c as int;
    n == 0x09 || n == 0x0A || n == 0x0B || n == 0x0C || n == 0x0D
    || n == 0x20 || n == 0xA0 || n == 0x1680
    || (0x2000 <= n <= 0x200A)
    || n == 0x2028 || n == 0x2029 || n == 0x202F || n == 0x205F
    || n == 0x3000 || n == 0xFEFF
  }

  /** `s` with its leading white space removed. */
  function TrimStart(s: string): (r: string)
    ensures |r| <= |s| && r == s[|s| - |r|..]
    ensures forall i :: 0 <= i < |s| - |r| ==> IsWhiteSpace(s[i])
    ensures r != [] ==> !IsWhiteSpace(r[0])
    decreases |s|
  {
    if s != [] && IsWhiteSpace(s[0]) then TrimStart(s[1..]) else s
  }

  /** `s` with its trailing white space removed. */
  function TrimEnd(s: string): (r: string)
    ensures |r| <= |s| && r == s[..|r|]
    ensures forall i :: |r| <= i < |s| ==> IsWhiteSpace(s[i])
    ensures r != [] ==> !IsWhiteSpace(r[|r| - 1])
    decreases |s|
  {
    if s != [] && IsWhiteSpace(s[|s| - 1]) then TrimEnd(s[..|s| - 1]) else s
  }

  /** `r` is the slice of `s` that starts at `lo`, and everything of `s`
      outside that slice is white space. */
  ghost predicate IsPaddedSlice(s: string, lo: int, r: string) {
    0 <= lo <= |s| - |r| && r == s[lo..lo + |r|]
    && (forall i :: 0 <= i < lo ==> IsWhiteSpace(s[i]))
    && (forall i :: lo + |r| <= i < |s| ==> IsWhiteSpace(s[i]))
  }

  /** `s.trim()`: the result is a slice of the input with only white space
      cut off on either side, and it neither starts nor ends with white
      space. */
  function Trim(s: string): (r: string)
    ensures r != [] ==> !IsWhiteSpace(r[0]) && !IsWhiteSpace(r[|r| - 1])
    ensures exists lo :: IsPaddedSlice(s, lo, r)
  {
    var t := TrimStart(s);
    var r := TrimEnd(t);
    assert IsPaddedSlice(s, |s| - |t|, r);
    r
  }

  /** Trimming leaves the empty string exactly when the input is all
      white space. */
  lemma TrimEmptyIffAllWhiteSpace(s: string)
    ensures Trim(s) == [] <==> forall i :: 0 <= i < |s| ==> IsWhiteSpace(s[i])
  {
    var r := Trim(s);
    var lo :| IsPaddedSlice(s, lo, r);
    if r != [] {
      assert r[0] == s[lo];
    }
  }

  /** A string that neither starts nor ends with white space is its own
      trim. */
  lemma TrimFixesUnpadded(s: string)
    requires s != [] ==> !IsWhiteSpace(s[0]) && !IsWhiteSpace(s[|s| - 1])
    ensures Trim(s) == s
  {
  }

  /** A leading white-space character is cut off by trim. */
  lemma TrimDropsLeadingWhiteSpace(s: string)
    requires s != [] && IsWhiteSpace(s[0])
    ensures Trim(s) == Trim(s[1..])
  {
  }
}
