/** The command-line scan of main.go:108-130: order-independent
    `key=value` tokens for `dir`, `types` and `savepath`. */
module Args {
  import opened GoStrings
  import opened Library

  /** What the scan yields. `savePath` is the output file path. */
  datatype Config = Config(dir: string, types: seq<string>, savePath: string)

  /** The values `main` starts from (main.go:108-111): no directory, no
      types, no save path. The directory is not cleaned when no `dir=`
      token is given. */
  const Initial := Config("", [], "")

  /** One token (main.go:114-129). `outName` is the file name
      `filelist-<unix time>.json` that the save path is joined with. */
  function ScanArg(o: Oracles, outName: string, c: Config, arg: string): Config {
    if HasSuffix(arg, "main") then c
    else
      var aa := Split(arg, '=');
      SplitSpec(arg, '=');
      if aa[0] == arg then c
      else
        assert '=' in arg by {
          if '=' !in arg { SplitWithoutSep(arg, '='); }
        }
        SplitWithSep(arg, '=');
        if aa[0] == "types" then c.(types := c.types + Split(aa[1], ','))
        else if aa[0] == "dir" then c.(dir := o.clean(aa[1]))
        else if aa[0] == "savepath" then c.(savePath := o.clean(o.join(aa[1], outName)))
        else c
  }

  /** The token loop, continued from `c`. */
  function ScanFrom(o: Oracles, outName: string, c: Config, args: seq<string>): Config
    decreases |args|
  {
    if args == [] then c else ScanFrom(o, outName, ScanArg(o, outName, c, args[0]), args[1..])
  }

  /** The whole scan of `os.Args`. */
  function ScanArgs(o: Oracles, outName: string, args: seq<string>): (c: Config)
    ensures c.types == RequestedTypes(args)
  {
    ScanTypesAccumulate(o, outName, Initial, args);
    ScanFrom(o, outName, Initial, args)
  }

  /** The token is `key=...`, not ending in "main". */
  predicate IsKey(arg: string, key: string) {
    !HasSuffix(arg, "main") && '=' in arg && Split(arg, '=')[0] == key
  }

  /** The text between the first `=` of a token and the next one (or the
      end): what the source reads as the token's value. */
  function Value(arg: string): string
    requires '=' in arg
  {
    SplitWithSep(arg, '=');
    Split(arg, '=')[1]
  }

  /** A token's key is the text before its first `=`, and its value the
      text up to the next `=` (main.go:117, 121-128). */
  lemma TokenParts(arg: string)
    requires '=' in arg
    ensures '=' !in Split(arg, '=')[0] && '=' !in Value(arg)
    ensures exists tail: string :: arg == Split(arg, '=')[0] + "=" + Value(arg) + tail && (tail == [] || tail[0] == '=')
  {
    SplitSpec(arg, '=');
    SplitWithSep(arg, '=');
    assert Value(arg) == Split(arg, '=')[1];
    var tail := ValueTail(arg);
  }

  /** What follows a token's value: nothing, or the next `=` onwards. */
  lemma ValueTail(arg: string) returns (tail: string)
    requires '=' in arg
    ensures |Split(arg, '=')| >= 2
    ensures arg == Split(arg, '=')[0] + "=" + Split(arg, '=')[1] + tail && (tail == [] || tail[0] == '=')
  {
    SplitWithSep(arg, '=');
    var aa := Split(arg, '=');
    var rest := aa[1..];
    tail := if |rest| == 1 then [] else ['='] + Join(rest[1..], '=');
    assert Join(rest, '=') == aa[1] + tail by {
      if |rest| > 1 { JoinFront(rest, '='); }
    }
  }

  /** A token without `=` is its own single chunk, so its key is itself and
      the scan skips it (main.go:117-119). */
  lemma NoSepToken(o: Oracles, outName: string, c: Config, arg: string)
    requires '=' !in arg
    ensures Split(arg, '=') == [arg]
    ensures ScanArg(o, outName, c, arg) == c
  {
    SplitWithoutSep(arg, '=');
  }

  /** The effect of one token, by key: types are appended, `dir` and
      `savepath` overwrite, anything else (a token ending in "main", one
      without `=`, an unknown key) changes nothing. */
  lemma ScanArgEffect(o: Oracles, outName: string, c: Config, arg: string)
    ensures IsKey(arg, "types") ==> ScanArg(o, outName, c, arg) == c.(types := c.types + Split(Value(arg), ','))
    ensures IsKey(arg, "dir") ==> ScanArg(o, outName, c, arg) == c.(dir := o.clean(Value(arg)))
    ensures IsKey(arg, "savepath") ==> ScanArg(o, outName, c, arg) == c.(savePath := o.clean(o.join(Value(arg), outName)))
    ensures !IsKey(arg, "types") && !IsKey(arg, "dir") && !IsKey(arg, "savepath") ==> ScanArg(o, outName, c, arg) == c
  {
    SplitSpec(arg, '=');
    if '=' in arg {
      SplitWithSep(arg, '=');
      var aa := Split(arg, '=');
      assert |aa[0]| < |arg|;
    } else {
      SplitWithoutSep(arg, '=');
    }
  }

  /** Scanning two runs of tokens is scanning one after the other. */
  lemma {:induction false} ScanFromAppend(o: Oracles, outName: string, c: Config, a: seq<string>, b: seq<string>)
    ensures ScanFrom(o, outName, c, a + b) == ScanFrom(o, outName, ScanFrom(o, outName, c, a), b)
    decreases |a|
  {
    if a == [] {
      assert a + b == b;
    } else {
      assert (a + b)[0] == a[0];
      assert (a + b)[1..] == a[1..] + b;
      ScanFromAppend(o, outName, ScanArg(o, outName, c, a[0]), a[1..], b);
    }
  }

  /** The types asked for: the comma-separated values of every `types=`
      token, in token order. */
  function RequestedTypes(args: seq<string>): seq<string> {
    if args == [] then []
    else (if IsKey(args[0], "types") then Split(Value(args[0]), ',') else []) + RequestedTypes(args[1..])
  }

  /** `types=` values accumulate, in order, after whatever was there
      (main.go:120-121). */
  lemma {:induction false} ScanTypesAccumulate(o: Oracles, outName: string, c: Config, args: seq<string>)
    ensures ScanFrom(o, outName, c, args).types == c.types + RequestedTypes(args)
    decreases |args|
  {
    if args != [] {
      ScanArgEffect(o, outName, c, args[0]);
      ScanTypesAccumulate(o, outName, ScanArg(o, outName, c, args[0]), args[1..]);
    }
  }

  /** Tokens that are not `dir=` tokens leave the directory alone. */
  lemma {:induction false} ScanKeepsDir(o: Oracles, outName: string, c: Config, args: seq<string>)
    requires forall j :: 0 <= j < |args| ==> !IsKey(args[j], "dir")
    ensures ScanFrom(o, outName, c, args).dir == c.dir
    decreases |args|
  {
    if args != [] {
      ScanArgEffect(o, outName, c, args[0]);
      ScanKeepsDir(o, outName, ScanArg(o, outName, c, args[0]), args[1..]);
    }
  }

  /** The last `dir=` token wins (main.go:122-123). */
  lemma DirLastWins(o: Oracles, outName: string, args: seq<string>, i: nat)
    requires i < |args| && IsKey(args[i], "dir")
    requires forall j :: i < j < |args| ==> !IsKey(args[j], "dir")
    ensures ScanArgs(o, outName, args).dir == o.clean(Value(args[i]))
  {
    var a := args[..i];
    var b := args[i + 1..];
    assert args == a + [args[i]] + b;
    ScanFromAppend(o, outName, Initial, a + [args[i]], b);
    ScanFromAppend(o, outName, Initial, a, [args[i]]);
    var c := ScanFrom(o, outName, Initial, a);
    ScanArgEffect(o, outName, c, args[i]);
    assert ScanFrom(o, outName, c, [args[i]]) == ScanArg(o, outName, c, args[i]);
    ScanKeepsDir(o, outName, ScanArg(o, outName, c, args[i]), b);
  }

  /** Without a `dir=` token the directory stays empty: it is not made the
      working directory. */
  lemma DirDefaultsToEmpty(o: Oracles, outName: string, args: seq<string>)
    requires forall j :: 0 <= j < |args| ==> !IsKey(args[j], "dir")
    ensures ScanArgs(o, outName, args).dir == ""
  {
    ScanKeepsDir(o, outName, Initial, args);
  }

  /** Tokens that are not `savepath=` tokens leave the save path alone. */
  lemma {:induction false} ScanKeepsSavePath(o: Oracles, outName: string, c: Config, args: seq<string>)
    requires forall j :: 0 <= j < |args| ==> !IsKey(args[j], "savepath")
    ensures ScanFrom(o, outName, c, args).savePath == c.savePath
    decreases |args|
  {
    if args != [] {
      ScanArgEffect(o, outName, c, args[0]);
      ScanKeepsSavePath(o, outName, ScanArg(o, outName, c, args[0]), args[1..]);
    }
  }

  /** Without a `savepath=` token the save path stays empty (main.go:111):
      no default location is chosen. */
  lemma SavePathDefaultsToEmpty(o: Oracles, outName: string, args: seq<string>)
    requires forall j :: 0 <= j < |args| ==> !IsKey(args[j], "savepath")
    ensures ScanArgs(o, outName, args).savePath == ""
  {
    ScanKeepsSavePath(o, outName, Initial, args);
  }

  /** A token the scan ignores can be dropped from anywhere. */
  lemma IgnoredTokenDropped(o: Oracles, outName: string, a: seq<string>, t: string, b: seq<string>)
    requires !IsKey(t, "types") && !IsKey(t, "dir") && !IsKey(t, "savepath")
    ensures ScanArgs(o, outName, a + [t] + b) == ScanArgs(o, outName, a + b)
  {
    ScanFromAppend(o, outName, Initial, a + [t], b);
    ScanFromAppend(o, outName, Initial, a, [t]);
    ScanFromAppend(o, outName, Initial, a, b);
    var c := ScanFrom(o, outName, Initial, a);
    ScanArgEffect(o, outName, c, t);
    assert ScanFrom(o, outName, c, [t]) == ScanArg(o, outName, c, t);
  }
}
