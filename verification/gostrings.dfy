/** The few functions of Go's `strings` package the program relies on,
    specialised to single-character separators. */
module GoStrings {

  /** Number of occurrences of `c` in `s`. */
  function Count(s: string, c: char): nat {
    multiset(s)[c]
  }

  predicate HasPrefix(s: string, prefix: string) {
    |prefix| <= |s| && s[..|prefix|] == prefix
  }

  predicate HasSuffix(s: string, suffix: string) {
    |suffix| <= |s| && s[|s| - |suffix|..] == suffix
  }

  /** Glues the parts back together with `sep` between neighbours
      (the inverse of `Split`). */
  function Join(parts: seq<string>, sep: char): string
    requires |parts| >= 1
    decreases |parts|
  {
    if |parts| == 1 then parts[0]
    else Join(parts[..|parts| - 1], sep) + [sep] + parts[|parts| - 1]
  }

  /** `strings.Split(s, sep)`: the maximal `sep`-free chunks of `s`.
      There is always at least one chunk; the empty string gives `[""]`. */
  function Split(s: string, sep: char): (r: seq<string>)
    ensures |r| >= 1
    decreases |s|
  {
    if s == [] then [[]]
    else
      var init := Split(s[..|s| - 1], sep);
      var x := s[|s| - 1];
      if x == sep then init + [[]]
      else init[..|init| - 1] + [init[|init| - 1] + [x]]
  }

  /** `Split` cuts at every separator and nowhere else: one more chunk than
      there are separators, no chunk holds one, and joining restores `s`. */
  lemma SplitSpec(s: string, sep: char)
    ensures |Split(s, sep)| == Count(s, sep) + 1
    ensures forall i :: 0 <= i < |Split(s, sep)| ==> sep !in Split(s, sep)[i]
    ensures Join(Split(s, sep), sep) == s
  {
    SplitCount(s, sep);
    SplitChunks(s, sep);
    SplitJoin(s, sep);
  }

  lemma {:induction false} SplitCount(s: string, sep: char)
    ensures |Split(s, sep)| == Count(s, sep) + 1
    decreases |s|
  {
    if s != [] {
      var pre := s[..|s| - 1];
      var x := s[|s| - 1];
      assert s == pre + [x];
      assert multiset(s) == multiset(pre) + multiset{x};
      SplitCount(pre, sep);
    }
  }

  lemma {:induction false} SplitChunks(s: string, sep: char)
    ensures forall i :: 0 <= i < |Split(s, sep)| ==> sep !in Split(s, sep)[i]
    decreases |s|
  {
    if s != [] {
      var pre := s[..|s| - 1];
      var x := s[|s| - 1];
      SplitChunks(pre, sep);
      var init := Split(pre, sep);
      var r := Split(s, sep);
      if x == sep {
        assert r == init + [[]];
      } else {
        assert r == init[..|init| - 1] + [init[|init| - 1] + [x]];
        assert forall i :: 0 <= i < |r| - 1 ==> r[i] == init[i];
      }
    }
  }

  lemma {:induction false} SplitJoin(s: string, sep: char)
    ensures Join(Split(s, sep), sep) == s
    decreases |s|
  {
    if s != [] {
      var pre := s[..|s| - 1];
      var x := s[|s| - 1];
      assert s == pre + [x];
      SplitJoin(pre, sep);
      var init := Split(pre, sep);
      if x == sep {
        JoinSnoc(init, [], sep);
      } else {
        JoinExtendLast(init, x, sep);
      }
    }
  }

  /** Appending a part appends a separator and the part. */
  lemma JoinSnoc(parts: seq<string>, p: string, sep: char)
    requires |parts| >= 1
    ensures Join(parts + [p], sep) == Join(parts, sep) + [sep] + p
  {
  }

  /** Extending the last part extends the joined text. */
  lemma JoinExtendLast(parts: seq<string>, x: char, sep: char)
    requires |parts| >= 1
    ensures Join(parts[..|parts| - 1] + [parts[|parts| - 1] + [x]], sep) == Join(parts, sep) + [x]
  {
  }

  /** Joining peels off from the front as well as from the back. */
  lemma {:induction false} JoinFront(parts: seq<string>, sep: char)
    requires |parts| >= 2
    ensures Join(parts, sep) == parts[0] + [sep] + Join(parts[1..], sep)
    decreases |parts|
  {
    if |parts| == 2 {
      assert parts[1..] == [parts[1]];
    } else {
      var init := parts[..|parts| - 1];
      JoinFront(init, sep);
      assert init[0] == parts[0];
      assert init[1..] == parts[1..][..|parts[1..]| - 1];
    }
  }

  /** A string without the separator is a single chunk: itself. */
  lemma SplitWithoutSep(s: string, sep: char)
    requires sep !in s
    ensures Split(s, sep) == [s]
  {
    SplitSpec(s, sep);
    assert Count(s, sep) == 0;
    var r := Split(s, sep);
    assert Join(r, sep) == r[0];
  }

  /** A string with the separator has at least two chunks, and the first
      one is exactly the text before the first separator. */
  lemma SplitWithSep(s: string, sep: char)
    requires sep in s
    ensures |Split(s, sep)| >= 2
    ensures sep !in Split(s, sep)[0]
    ensures s == Split(s, sep)[0] + [sep] + Join(Split(s, sep)[1..], sep)
  {
    SplitSpec(s, sep);
    assert multiset(s)[sep] > 0;
    JoinFront(Split(s, sep), sep);
  }
}
