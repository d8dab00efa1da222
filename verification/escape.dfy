/** The `.txt` rendering of the output (main.go:171): every double quote of
    the JSON text is preceded by a backslash. */
module Escape {
  import opened GoStrings

  /** `strings.ReplaceAll(s, "\"", "\\\"")`. */
  function EscapeQuotes(s: string): (r: string)
    ensures |r| == |s| + Count(s, '"')
    ensures r != [] ==> r[0] != '"'
    ensures forall i :: 0 <= i < |r| && r[i] == '"' ==> 0 < i && r[i - 1] == '\\'
  {
    if s == [] then []
    else
      var rest := EscapeQuotes(s[1..]);
      assert s == [s[0]] + s[1..];
      assert multiset(s) == multiset{s[0]} + multiset(s[1..]);
      if s[0] == '"' then
        var r := ['\\', '"'] + rest;
        assert forall i :: 2 <= i < |r| ==> r[i] == rest[i - 2];
        r
      else
        var r := [s[0]] + rest;
        assert forall i :: 1 <= i < |r| ==> r[i] == rest[i - 1];
        r
  }

  /** Escaping adds backslashes only: there are as many quotes after as
      before. */
  lemma {:induction false} EscapeKeepsQuoteCount(s: string)
    ensures Count(EscapeQuotes(s), '"') == Count(s, '"')
  {
    if s != [] {
      var rest := EscapeQuotes(s[1..]);
      EscapeKeepsQuoteCount(s[1..]);
      assert s == [s[0]] + s[1..];
      assert multiset(s) == multiset{s[0]} + multiset(s[1..]);
      if s[0] == '"' {
        assert EscapeQuotes(s) == ['\\', '"'] + rest;
        assert multiset(['\\', '"'] + rest) == multiset{'\\', '"'} + multiset(rest);
      } else {
        assert EscapeQuotes(s) == [s[0]] + rest;
        assert multiset([s[0]] + rest) == multiset{s[0]} + multiset(rest);
      }
    }
  }

  /** Turns every `\"` back into `"`, scanning from the left; any other
      character is kept. */
  function UnescapeQuotes(t: string): string
    decreases |t|
  {
    if t == [] then []
    else if |t| >= 2 && t[0] == '\\' && t[1] == '"' then ['"'] + UnescapeQuotes(t[2..])
    else [t[0]] + UnescapeQuotes(t[1..])
  }

  /** Escaping loses nothing: every other character is kept, in order, and
      unescaping restores the original text. */
  lemma {:induction false} EscapeRoundTrip(s: string)
    ensures UnescapeQuotes(EscapeQuotes(s)) == s
  {
    if s != [] {
      var rest := EscapeQuotes(s[1..]);
      EscapeRoundTrip(s[1..]);
      if s[0] == '"' {
        var r := ['\\', '"'] + rest;
        assert EscapeQuotes(s) == r;
        assert r[2..] == rest;
      } else {
        var r := [s[0]] + rest;
        assert EscapeQuotes(s) == r;
        assert r[1..] == rest;
        assert |r| >= 2 ==> r[1] == rest[0] && r[1] != '"';
      }
      assert s == [s[0]] + s[1..];
    }
  }
}
