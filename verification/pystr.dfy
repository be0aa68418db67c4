/**
 Python's notion of whitespace and of `str.strip()` with no argument, which
 removes leading and trailing characters for which `str.isspace()` holds.
 */
module PyStr {

  /** The characters for which Python's `str.isspace()` is true: those whose
      bidirectional class is WS, B or S, or whose general category is Zs. */
  predicate IsWhitespace(c: char) {
    || ('\t' <= c <= '\r')                       // TAB, LF, VT, FF, CR
    || ('\U{1C}' <= c <= '\U{1F}')               // FS, GS, RS, US
    || c == ' '
    || c == '\U{85}'                             // NEL
    || c == '\U{A0}'                             // NO-BREAK SPACE
    || c == '\U{1680}'                           // OGHAM SPACE MARK
    || ('\U{2000}' <= c <= '\U{200A}')           // EN QUAD .. HAIR SPACE
    || c == '\U{2028}' || c == '\U{2029}'        // LINE / PARAGRAPH SEPARATOR
    || c == '\U{202F}'                           // NARROW NO-BREAK SPACE
    || c == '\U{205F}'                           // MEDIUM MATHEMATICAL SPACE
    || c == '\U{3000}'                           // IDEOGRAPHIC SPACE
  }

  /** True when every character of `s` is whitespace (vacuously for ""). */
  predicate AllWhitespace(s: string) {
    forall i :: 0 <= i < |s| ==> IsWhitespace(s[i])
  }

  /** `s.lstrip()`: the longest suffix of `s` that does not start with whitespace. */
  function TrimStart(s: string): (r: string)
    ensures |r| <= |s| && r == s[|s| - |r|..]
    ensures forall i :: 0 <= i < |s| - |r| ==> IsWhitespace(s[i])
    ensures r == [] || !IsWhitespace(r[0])
  {
    if |s| > 0 && IsWhitespace(s[0]) then TrimStart(s[1..]) else s
  }

  /** `s.rstrip()`: the longest prefix of `s` that does not end with whitespace. */
  function TrimEnd(s: string): (r: string)
    ensures |r| <= |s| && r == s[..|r|]
    ensures forall i :: |r| <= i < |s| ==> IsWhitespace(s[i])
    ensures r == [] || !IsWhitespace(r[|r| - 1])
  {
    if |s| > 0 && IsWhitespace(s[|s| - 1]) then TrimEnd(s[..|s| - 1]) else s
  }

  /** Cutting a whitespace prefix from `s`, leaving `t`, and then a whitespace
      suffix from `t`, leaving `r`, leaves a slice of `s` with whitespace on
      either side; these are the facts `TrimStart` and `TrimEnd` promise. */
  lemma StripFacts(s: string, t: string, r: string)
    requires |t| <= |s| && t == s[|s| - |t|..]
    requires forall i :: 0 <= i < |s| - |t| ==> IsWhitespace(s[i])
    requires t == [] || !IsWhitespace(t[0])
    requires |r| <= |t| && r == t[..|r|]
    requires forall i :: |r| <= i < |t| ==> IsWhitespace(t[i])
    requires r == [] || !IsWhitespace(r[|r| - 1])
    ensures exists a, b :: 0 <= a <= b <= |s| && r == s[a..b]
                           && AllWhitespace(s[..a]) && AllWhitespace(s[b..])
    ensures r == [] || (!IsWhitespace(r[0]) && !IsWhitespace(r[|r| - 1]))
    ensures r == [] <==> AllWhitespace(s)
  {
    var a := |s| - |t|;
    var b := a + |r|;
    assert r == s[a..b];
    assert AllWhitespace(s[..a]) by {
      forall i | 0 <= i < a ensures IsWhitespace(s[..a][i]) {
        assert s[..a][i] == s[i];
      }
    }
    assert AllWhitespace(s[b..]) by {
      forall i | 0 <= i < |s| - b ensures IsWhitespace(s[b..][i]) {
        assert s[b..][i] == t[|r| + i];
      }
    }
    if r == [] {
      assert t == [];
    } else {
      assert r[0] == t[0];
    }
  }

  /** `s.strip()`: the slice of `s` left between a leading and a trailing run
      of whitespace, with neither of its ends on whitespace; empty exactly
      when `s` is empty or all whitespace. */
  function Strip(s: string): (r: string)
    ensures exists a, b :: 0 <= a <= b <= |s| && r == s[a..b]
                           && AllWhitespace(s[..a]) && AllWhitespace(s[b..])
    ensures r == [] || (!IsWhitespace(r[0]) && !IsWhitespace(r[|r| - 1]))
    ensures r == [] <==> AllWhitespace(s)
  {
    var t := TrimStart(s);
    var r := TrimEnd(t);
    StripFacts(s, t, r);
    r
  }
}
