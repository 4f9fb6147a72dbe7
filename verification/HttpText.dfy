/** The string operations the HTTP field parsers are written with. */
module HttpText {
  const QUOTE: char := '"'

  /** White space as `String.prototype.trim` removes it. */
  predicate IsSpace(c: char) {
    || c == ' ' || c == '\t' || c == '\n' || c == '\r' || c == '\U{0B}' || c == '\U{0C}' || c == '\U{A0}'
    || c == '\U{1680}' || '\U{2000}' <= c <= '\U{200A}' || c == '\U{2028}' || c == '\U{2029}' || c == '\U{202F}'
    || c == '\U{205F}' || c == '\U{3000}' || c == '\U{FEFF}'
  }

  function TrimStart(s: string): string {
    if s != [] && IsSpace(s[0]) then TrimStart(s[1..]) else s
  }

  function TrimEnd(s: string): string {
    if s != [] && IsSpace(s[|s| - 1]) then TrimEnd(s[..|s| - 1]) else s
  }

  function Trim(s: string): string {
    TrimEnd(TrimStart(s))
  }

  /**
   * Lower case for the letters A to Z, and for the Kelvin sign, whose lower case
   * is the letter k. Every other character whose lower case differs has a lower
   * case outside ASCII and is no part of a token either way.
   */
  function LowerChar(c: char): char {
    if 'A' <= c <= 'Z' then (c as int + 32) as char else if c == '\U{212A}' then 'k' else c
  }

  function Lower(s: string): (r: string)
    ensures |r| == |s|
  {
    seq(|s|, i requires 0 <= i < |s| => LowerChar(s[i]))
  }

  /** `tchar` of section 5.6.2 of RFC 9110. */
  predicate IsTokenChar(c: char) {
    || '0' <= c <= '9' || 'A' <= c <= 'Z' || 'a' <= c <= 'z'
    || c in "!#$%&'*+-.^_`|~"
  }

  predicate IsToken(s: string) {
    s != [] && forall i :: 0 <= i < |s| ==> IsTokenChar(s[i])
  }

  /** The first place of `c`, or the string's length. */
  function IndexOf(s: string, c: char): (k: nat)
    ensures k <= |s|
    ensures k < |s| ==> s[k] == c
    ensures forall i :: 0 <= i < k ==> s[i] != c
  {
    if s == [] || s[0] == c then 0 else 1 + IndexOf(s[1..], c)
  }

  /** The parts with the delimiter written between them. */
  function Join(parts: seq<string>, d: char): string {
    if parts == [] then [] else if |parts| == 1 then parts[0] else parts[0] + [d] + Join(parts[1..], d)
  }

  lemma SliceOfSlice(s: string, a: nat, b: nat, c: nat, d: nat)
    requires a <= b <= |s| && c <= d <= b - a
    ensures s[a..b][c..d] == s[a + c..a + d]
  {
    assert forall k :: 0 <= k < d - c ==> s[a..b][c..d][k] == s[a..b][c + k] == s[a + c..a + d][k];
  }

  /** Trimming leaves a string that neither starts nor ends with white space alone. */
  lemma {:induction false} TrimOfTight(s: string)
    requires s == [] || (!IsSpace(s[0]) && !IsSpace(s[|s| - 1]))
    ensures Trim(s) == s
  {
  }

  /** Spaces and tabs. */
  predicate IsPad(s: string) {
    forall k :: 0 <= k < |s| ==> s[k] == ' ' || s[k] == '\t'
  }

  lemma {:induction false} TrimStartOfPad(b: string, t: string)
    requires IsPad(b) && t != "" && !IsSpace(t[0])
    ensures TrimStart(b + t) == t
  {
    if b == "" {
      assert b + t == t;
    } else {
      assert (b + t)[1..] == b[1..] + t;
      TrimStartOfPad(b[1..], t);
    }
  }

  lemma {:induction false} TrimEndOfPad(t: string, a: string)
    requires IsPad(a) && t != "" && !IsSpace(t[|t| - 1])
    ensures TrimEnd(t + a) == t
  {
    if a == "" {
      assert t + a == t;
    } else {
      var n := |a| - 1;
      assert (t + a)[..|t + a| - 1] == t + a[..n];
      assert (t + a)[|t + a| - 1] == a[n];
      TrimEndOfPad(t, a[..n]);
    }
  }

  /** White space around a text is trimmed away. */
  lemma TrimOfPadded(b: string, t: string, a: string)
    requires IsPad(b) && IsPad(a) && t != "" && !IsSpace(t[0]) && !IsSpace(t[|t| - 1])
    ensures Trim(b + t + a) == t
  {
    assert b + t + a == b + (t + a);
    assert (t + a)[0] == t[0];
    TrimStartOfPad(b, t + a);
    TrimEndOfPad(t, a);
  }

  lemma {:induction false} TrimOfBlank(s: string)
    requires IsPad(s)
    ensures Trim(s) == ""
  {
    if s != "" {
      TrimOfBlank(s[1..]);
    }
  }
}
