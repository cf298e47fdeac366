/** The string built-ins the pages apply to codes: `trim`, `toUpperCase` and
    `substring`. */
module Text {

  /** Characters `String.prototype.trim` removes: the white-space and
      line-terminator code points of ECMAScript. */
  predicate IsSpace(c: char) {
    || c == '\t' || c == '\n' || c == '\U{000B}' || c == '\U{000C}' || c == '\r'
    || c == ' ' || c == '\U{00A0}' || c == '\U{1680}'
    || ('\U{2000}' <= c <= '\U{200A}')
    || c == '\U{2028}' || c == '\U{2029}' || c == '\U{202F}' || c == '\U{205F}'
    || c == '\U{3000}' || c == '\U{FEFF}'
  }

  predicate AllSpace(s: string) {
    forall i :: 0 <= i < |s| ==> IsSpace(s[i])
  }

  /** `s` with its leading white space removed: a suffix of `s`. */
  function TrimStart(s: string): (r: string)
    ensures |r| <= |s| && r == s[|s| - |r|..]
    ensures AllSpace(s[..|s| - |r|])
    ensures r == [] || !IsSpace(r[0])
  {
    if |s| > 0 && IsSpace(s[0]) then
      var r := TrimStart(s[1..]);
      assert s[1..][|s[1..]| - |r|..] == s[|s| - |r|..];
      assert forall i :: 0 < i < |s| - |r| ==> s[i] == s[1..][..|s[1..]| - |r|][i - 1];
      r
    else s
  }

  /** `s` with its trailing white space removed: a prefix of `s`. */
  function TrimEnd(s: string): (r: string)
    ensures |r| <= |s| && r == s[..|r|]
    ensures AllSpace(s[|r|..])
    ensures r == [] || !IsSpace(r[|r| - 1])
  {
    if |s| > 0 && IsSpace(s[|s| - 1]) then
      var r := TrimEnd(s[..|s| - 1]);
      assert forall i :: |r| <= i < |s| - 1 ==> s[i] == s[..|s| - 1][i];
      r
    else s
  }

  /** `s.trim()`. */
  function Trim(s: string): string {
    TrimEnd(TrimStart(s))
  }

  predicate IsLower(c: char) {
    'a' <= c <= 'z'
  }

  /** Upper-case form of one character. */
  function UpperChar(c: char): char {
    if IsLower(c) then (c as int - 'a' as int + 'A' as int) as char else c
  }

  /** `s.toUpperCase()` on the ASCII letters the codes use. */
  function ToUpper(s: string): (r: string)
    ensures |r| == |s|
    ensures forall i :: 0 <= i < |s| ==> r[i] == UpperChar(s[i])
  {
    if |s| == 0 then [] else [UpperChar(s[0])] + ToUpper(s[1..])
  }

  /** `s.substring(start, end)` with `start <= end`: both bounds are clamped
      to the string. */
  function Substring(s: string, start: nat, end: nat): (r: string)
    requires start <= end
    ensures |r| == (if end <= |s| then end else |s|) - (if start <= |s| then start else |s|)
    ensures start <= |s| ==> forall i :: 0 <= i < |r| ==> r[i] == s[start + i]
  {
    var hi := if end <= |s| then end else |s|;
    var lo := if start <= |s| then start else |s|;
    s[lo..hi]
  }

  /** A digit of `Number.prototype.toString(36)`. */
  predicate IsBase36Digit(c: char) {
    '0' <= c <= '9' || 'a' <= c <= 'z'
  }

  /** `Math.random().toString(36)`: the text of a number in `[0, 1)` in base 36: `0.` and then its
      fraction digits. */
  predicate IsRandomText(t: string) {
    |t| >= 2 && t[..2] == "0." && forall i :: 2 <= i < |t| ==> IsBase36Digit(t[i])
  }

  // ---------------------------------------------------------------------------
  // Lemmas

  /** `trim` keeps exactly the text between the leading and the trailing
      white space. */
  lemma TrimIsInnerSlice(s: string)
    ensures exists i, j ::
              && 0 <= i <= j <= |s| && Trim(s) == s[i..j]
              && AllSpace(s[..i]) && AllSpace(s[j..])
    ensures Trim(s) == [] || (!IsSpace(Trim(s)[0]) && !IsSpace(Trim(s)[|Trim(s)| - 1]))
  {
    var t := TrimStart(s);
    var i := |s| - |t|;
    var r := TrimEnd(t);
    var j := i + |r|;
    assert r == s[i..j];
    assert s[j..] == t[|r|..];
    TrimEdges(s);
  }

  lemma TrimEdges(s: string)
    ensures Trim(s) == [] || (!IsSpace(Trim(s)[0]) && !IsSpace(Trim(s)[|Trim(s)| - 1]))
  {
    var t := TrimStart(s);
    var r := TrimEnd(t);
    if r != [] {
      assert r[0] == t[0];
    }
  }

  /** Upper-casing leaves no lower-case ASCII letter. */
  lemma ToUpperHasNoLower(s: string)
    ensures forall i :: 0 <= i < |ToUpper(s)| ==> !IsLower(ToUpper(s)[i])
  {
  }

  lemma ToUpperIdempotent(s: string)
    ensures ToUpper(ToUpper(s)) == ToUpper(s)
  {
    assert forall i :: 0 <= i < |s| ==> UpperChar(UpperChar(s[i])) == UpperChar(s[i]);
  }

  /** A string that neither starts nor ends with white space is its own
      trim. */
  lemma TrimUnchanged(s: string)
    requires |s| > 0 && !IsSpace(s[0]) && !IsSpace(s[|s| - 1])
    ensures Trim(s) == s
  {
    assert TrimStart(s) == s;
  }

  /** Trimming and upper-casing commute: upper-casing never creates or
      removes white space. */
  lemma {:induction false} TrimStartToUpper(s: string)
    ensures TrimStart(ToUpper(s)) == ToUpper(TrimStart(s))
  {
    if |s| > 0 {
      var u := ToUpper(s);
      assert u[0] == UpperChar(s[0]) && u[1..] == ToUpper(s[1..]);
      UpperKeepsSpace(s[0]);
      if IsSpace(s[0]) {
        assert TrimStart(u) == TrimStart(u[1..]);
        assert TrimStart(s) == TrimStart(s[1..]);
        TrimStartToUpper(s[1..]);
      } else {
        assert TrimStart(u) == u && TrimStart(s) == s;
      }
    }
  }

  lemma {:induction false} TrimEndToUpper(s: string)
    ensures TrimEnd(ToUpper(s)) == ToUpper(TrimEnd(s))
  {
    if |s| > 0 {
      var u, n := ToUpper(s), |s| - 1;
      assert u[n] == UpperChar(s[n]) && u[..n] == ToUpper(s[..n]);
      UpperKeepsSpace(s[n]);
      if IsSpace(s[n]) {
        assert TrimEnd(u) == TrimEnd(u[..n]);
        assert TrimEnd(s) == TrimEnd(s[..n]);
        TrimEndToUpper(s[..n]);
      } else {
        assert TrimEnd(u) == u && TrimEnd(s) == s;
      }
    }
  }

  /** Upper-casing a character never makes or removes white space. */
  lemma UpperKeepsSpace(c: char)
    ensures IsSpace(UpperChar(c)) == IsSpace(c)
  {
  }

  lemma TrimToUpper(s: string)
    ensures Trim(ToUpper(s)) == ToUpper(Trim(s))
  {
    TrimStartToUpper(s);
    TrimEndToUpper(TrimStart(s));
  }
}
