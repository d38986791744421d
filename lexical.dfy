/**
 * The fixed regular expressions of the ABNF and PEG meta-grammars, written out as
 * matchers: each gives the length of the match at the start of its input, as
 * `rgx` understands a regular expression (the match must begin at index 0; a
 * greedy quantifier takes the longest run, a lazy one the shortest).
 */
module Lexical {
  import opened Wrappers
  import opened Values

  /** The longest prefix of `s` whose characters all satisfy `p`: the greedy `[...]*`. */
  function Span(s: string, p: char -> bool): (n: nat)
    ensures n <= |s|
    ensures forall i :: 0 <= i < n ==> p(s[i])
    ensures n < |s| ==> !p(s[n])
  {
    if s != [] && p(s[0]) then
      var n := 1 + Span(s[1..], p);
      assert forall i :: 1 <= i < n ==> s[i] == s[1..][i - 1];
      n
    else 0
  }

  predicate IsHexDigit(c: char) { '0' <= c <= '9' || 'a' <= c <= 'f' || 'A' <= c <= 'F' }
  predicate IsBinDigit(c: char) { c == '0' || c == '1' }
  predicate IsLetter(c: char) { 'a' <= c <= 'z' || 'A' <= c <= 'Z' }
  predicate IsAlnum(c: char) { IsLetter(c) || IsDecimalDigit(c) }
  predicate IsNameChar(c: char) { IsAlnum(c) || c == '-' }
  predicate IsPrintable(c: char) { ' ' <= c <= '~' }

  /** `[...]*`: always matches, taking every leading character of the class. */
  function Star(s: string, p: char -> bool): Option<nat>
  {
    Some(Span(s, p))
  }

  /** `[...]+`: the same run, which must not be empty. */
  function Plus(s: string, p: char -> bool): (r: Option<nat>)
    ensures r.Some? <==> s != [] && p(s[0])
    ensures r.Some? ==> r.value == Span(s, p)
  {
    var n := Span(s, p);
    if n > 0 then Some(n) else None
  }

  /**
   * `\s*c\s*` for a character `c` that is not white space: white space, one `c`,
   * white space, the white space runs taken whole.
   */
  function Padded(s: string, c: char): (r: Option<nat>)
    requires !IsJsSpace(c)
    ensures r.Some? <==> exists a :: 0 <= a < |s| && s[a] == c && forall i :: 0 <= i < a ==> IsJsSpace(s[i])
    ensures r.Some? ==> var a := Span(s, IsJsSpace);
      && a < |s| && s[a] == c && r.value == a + 1 + Span(s[a + 1..], IsJsSpace)
      && (r.value < |s| ==> !IsJsSpace(s[r.value]))
  {
    var a := Span(s, IsJsSpace);
    if a < |s| && s[a] == c then
      var b := Span(s[a + 1..], IsJsSpace);
      assert a + 1 + b < |s| ==> s[a + 1 + b] == s[a + 1..][b];
      Some(a + 1 + b)
    else
      assert forall a' :: 0 <= a' < |s| && s[a'] == c && (forall i :: 0 <= i < a' ==> IsJsSpace(s[i])) ==> a' == a;
      None
  }

  /**
   * `\s+c\s+` for a character `c` that is not white space: as `Padded`, but both
   * white space runs must be non-empty.
   */
  function Spaced(s: string, c: char): (r: Option<nat>)
    requires !IsJsSpace(c)
    ensures r.Some? <==> Padded(s, c).Some? && 0 < Span(s, IsJsSpace) && Padded(s, c).value > Span(s, IsJsSpace) + 1
    ensures r.Some? ==> r == Padded(s, c)
  {
    var a := Span(s, IsJsSpace);
    if 0 < a < |s| && s[a] == c then
      var b := Span(s[a + 1..], IsJsSpace);
      if b > 0 then Some(a + 1 + b) else None
    else None
  }

  /** `[a-zA-Z][a-zA-Z0-9\-]*`, the ABNF rule name. */
  function RuleName(s: string): (r: Option<nat>)
    ensures r.Some? <==> s != [] && IsLetter(s[0])
    ensures r.Some? ==> 0 < r.value <= |s| && (forall i :: 1 <= i < r.value ==> IsNameChar(s[i]))
                        && (r.value < |s| ==> !IsNameChar(s[r.value]))
  {
    if s != [] && IsLetter(s[0]) then
      var n := Span(s[1..], IsNameChar);
      assert forall i :: 1 <= i < 1 + n ==> s[i] == s[1..][i - 1];
      assert 1 + n < |s| ==> s[1 + n] == s[1..][n];
      Some(1 + n)
    else None
  }

  /** `[\u0000-￿]`: any one character. */
  function AnyChar(s: string): (r: Option<nat>)
    ensures r.Some? <==> s != []
    ensures r.Some? ==> r.value == 1
  {
    if s != [] then Some(1) else None
  }

  /**
   * `lq[\x20-\x7E]*?rq`: `lq`, then the shortest run of printable characters that
   * is followed by `rq`, then that `rq`; the run therefore holds no `rq`.
   */
  function Quoted(s: string, lq: char, rq: char): (r: Option<nat>)
    ensures r.Some? ==> 2 <= r.value <= |s| && s[0] == lq && s[r.value - 1] == rq
                        && forall i :: 1 <= i < r.value - 1 ==> IsPrintable(s[i]) && s[i] != rq
    ensures r.None? ==> !(exists k :: 1 <= k < |s| && s[0] == lq && s[k] == rq && forall i :: 1 <= i < k ==> IsPrintable(s[i]))
  {
    if s != [] && s[0] == lq then
      var k := Span(s[1..], c => IsPrintable(c) && c != rq);
      assert forall i :: 1 <= i < 1 + k ==> s[i] == s[1..][i - 1];
      if 1 + k < |s| && s[1 + k] == rq then Some(k + 2)
      else
        assert 1 + k < |s| ==> s[1 + k] == s[1..][k];
        None
    else None
  }
}
