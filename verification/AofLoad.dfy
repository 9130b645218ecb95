/** The loops of loadAppendOnlyFile over the file position. */
module AofLoad {
  import opened Bytes
  import opened AofFormat

  /** fgets: the line at p, where it ends, and whether the end of the file was hit. */
  method Gets(f: seq<Byte>, p: nat) returns (line: seq<Byte>, q: nat, eof: bool)
    requires p <= |f|
    ensures q == p + LineLen(f[p..], LINE_MAX) <= |f| && line == f[p..q] && eof == HitsEof(f[p..])
  {
    q := p;
    var done := false;
    while q < |f| && q - p < LINE_MAX && !done
      invariant p <= q <= |f| && q - p <= LINE_MAX
      invariant done ==> q > p && f[q - 1] == LF && LineLen(f[p..], LINE_MAX) == q - p
      invariant !done ==> LineLen(f[p..], LINE_MAX) == q - p + LineLen(f[q..], LINE_MAX - (q - p))
      invariant !done ==> q == p || f[q - 1] != LF
    {
      assert f[q..][1..] == f[q + 1..];
      if f[q] == LF { done := true; }
      q := q + 1;
    }
    line := f[p..q];
    eof := q == |f| && q - p < LINE_MAX && !done;
  }

  /** One argument at p; the position behind it. */
  method NextArg(f: seq<Byte>, p: nat) returns (a: ArgRead, q: nat)
    requires p <= |f|
    ensures a == ReadArg(f[p..])
    ensures a.GotArg? ==> q <= |f| && a.rest == f[q..]
  {
    q := p;
    if p == |f| { return ShortArg, p; }
    var line, next, eof := Gets(f, p);
    assert line == f[p..][..next - p] && f[p..][next - p..] == f[next..];
    assert line[1..] == f[p..][1..next - p];
    if line[0] != DOLLAR { return BadArg, p; }
    var len := Number(line[1..]);
    if len < 0 { return BadArg, p; }
    if |f| - next < len { return ShortArg, p; }
    var arg := f[next..next + len];
    assert arg == f[next..][..len];
    if |f| - next - len < 2 { return ShortArg, p; }
    q := next + len + 2;
    assert f[next..][len + 2..] == f[q..];
    return GotArg(arg, f[q..]), q;
  }

  lemma {:induction false} ReadArgsStep(s: seq<Byte>, n: nat, got: Argv)
    requires n > 0
    ensures ReadArgs(s, n, got) == match ReadArg(s)
                                   case GotArg(arg, rest) => ReadArgs(rest, n - 1, got + [arg])
                                   case ShortArg => Short
                                   case BadArg => Bad
  {
  }

  lemma {:induction false} NoMoreArgs(s: seq<Byte>, got: Argv)
    ensures ReadArgs(s, 0, got) == GotCmd(got, s)
  {
  }

  /** The loop over the arguments. */
  method NextArgs(f: seq<Byte>, p: nat, argc: nat) returns (c: CmdRead, q: nat)
    requires p <= |f|
    ensures c == ReadArgs(f[p..], argc, []) && (c.GotCmd? ==> q <= |f| && c.rest == f[q..])
  {
    q := p;
    ghost var goal := ReadArgs(f[p..], argc, []);
    var argv, j, stop := [], 0, false;
    c := Short;
    hide ReadArg, ReadArgs;
    while j < argc && !stop
      invariant 0 <= j <= argc && q <= |f|
      invariant if stop then c == goal && !c.GotCmd? else goal == ReadArgs(f[q..], argc - j, argv)
      decreases argc - j, !stop
    {
      var a, next := NextArg(f, q);
      ReadArgsStep(f[q..], argc - j, argv);
      if a.GotArg? {
        argv, q, j := argv + [a.arg], next, j + 1;
      } else {
        c, stop := if a.ShortArg? then Short else Bad, true;
      }
    }
    if !stop {
      c := GotCmd(argv, f[q..]);
      NoMoreArgs(f[q..], argv);
    }
  }

  method NextCmd(f: seq<Byte>, p: nat) returns (c: CmdRead, q: nat)
    requires p <= |f|
    ensures c == ReadCmd(f[p..]) && (c.GotCmd? ==> q <= |f| && c.rest == f[q..])
  {
    q := p;
    if p == |f| { return End, p; }
    var line, next, eof := Gets(f, p);
    hide LineLen, HitsEof, ReadArgs, Number;
    assert line == f[p..][..next - p] && f[p..][next - p..] == f[next..];
    assert line[1..] == f[p..][1..next - p];
    if line[0] != STAR { return Bad, p; }
    if |line| == 1 || line[1] == 0 {
      return if eof then Short else Unreadable, p;
    }
    var argc := Number(line[1..]);
    if argc < 1 { return Bad, p; }
    c, q := NextArgs(f, next, argc);
  }

  lemma {:induction false} LoadWithin(s: seq<Byte>, n: nat, cmds: seq<Argv>)
    ensures n <= Load(s, n, cmds).validUpTo <= n + |s|
    ensures Load(s, n, cmds).ending.Clean? ==> Load(s, n, cmds).validUpTo == n + |s|
    decreases |s|
  {
    hide ReadArgs, LineLen, Number;
    match ReadCmd(s)
    case GotCmd(argv, rest) => LoadWithin(rest, n + |s| - |rest|, cmds + [argv]);
    case _ =>
  }

  /** The loop over the commands. */
  method ReadCmds(f: seq<Byte>) returns (cmds: seq<Argv>, validUpTo: nat, ending: Ending)
    ensures Load(f, 0, []) == Loaded(cmds, validUpTo, ending)
  {
    var p, stop := 0, false;
    cmds, validUpTo, ending := [], 0, Clean;
    assert f[0..] == f;
    hide Load, ReadCmd;
    while !stop
      invariant p <= |f|
      invariant Load(f, 0, []) == if stop then Loaded(cmds, p, ending) else Load(f[p..], p, cmds)
      decreases |f| - p, !stop
    {
      p, cmds, stop, ending := NextOf(f, p, cmds);
    }
    validUpTo := p;
  }

  /** One round of it. */
  method NextOf(f: seq<Byte>, p: nat, cmds: seq<Argv>) returns (q: nat, cmds': seq<Argv>, stop: bool, ending: Ending)
    requires p <= |f|
    ensures p <= q <= |f| && (!stop ==> p < q)
    ensures Load(f[p..], p, cmds) == if stop then Loaded(cmds', q, ending) else Load(f[q..], q, cmds')
  {
    hide Load, ReadCmd;
    var c, at := NextCmd(f, p);
    LoadStep(f[p..], p, cmds);
    if c.GotCmd? {
      return at, cmds + [c.argv], false, Clean;
    }
    return p, cmds, true, if c.End? then Clean else if c.Short? then Truncated else Fatal;
  }

  /** loadAppendOnlyFile: what is loaded, whether the server goes on, and what is left of the file. */
  method LoadAppendOnlyFile(f: seq<Byte>, loadTruncated: bool, canTruncate: bool)
    returns (cmds: seq<Argv>, ok: bool, f': seq<Byte>)
    ensures var l := Load(f, 0, []);
            && cmds == l.cmds
            && (ok <==> l.ending.Clean? || (l.ending.Truncated? && loadTruncated && canTruncate))
            && l.validUpTo <= |f| && (ok ==> f' == f[..l.validUpTo])
  {
    LoadWithin(f, 0, []);
    assert f[..|f|] == f;
    var validUpTo, ending;
    hide Load;
    cmds, validUpTo, ending := ReadCmds(f);
    f', ok := f, ending.Clean?;
    if ending.Truncated? && loadTruncated && canTruncate {
      f', ok := f[..validUpTo], true;
    }
  }

  lemma {:induction false} LoadStep(s: seq<Byte>, n: nat, cmds: seq<Argv>)
    ensures Load(s, n, cmds) == match ReadCmd(s)
                                case GotCmd(argv, rest) => Load(rest, n + |s| - |rest|, cmds + [argv])
                                case End => Loaded(cmds, n, Clean)
                                case Short => Loaded(cmds, n, Truncated)
                                case Unreadable => Loaded(cmds, n, Fatal)
                                case Bad => Loaded(cmds, n, Fatal)
  {
    hide ReadCmd;
  }
}
