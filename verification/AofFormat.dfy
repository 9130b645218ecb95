/** The append-only file as a format: the printer, the parser and what the parser makes of a file cut short. */
module AofFormat {
  import opened Bytes

  type Argv = seq<seq<Byte>>

  const CR: Byte := 13
  const LF: Byte := 10
  const STAR: Byte := 42
  const DOLLAR: Byte := 36
  const LINE_MAX: nat := 127
  const INT_MAX: nat := 0x7fff_ffff
  const LONG_MAX: nat := 0x7fff_ffff_ffff_ffff

  // ----- printing -----

  /** Decimal digits, as ll2string writes them. */
  function Dec(n: nat): (s: seq<Byte>)
    ensures s != []
  {
    if n < 10 then [48 + n] else Dec(n / 10) + [48 + n % 10]
  }

  function Header(c: Byte, n: nat): seq<Byte> {
    [c] + Dec(n) + [CR, LF]
  }

  function PrintArg(a: seq<Byte>): seq<Byte> {
    Header(DOLLAR, |a|) + (a + [CR, LF])
  }

  function PrintArgs(argv: Argv): seq<Byte> {
    if argv == [] then [] else PrintArg(argv[0]) + PrintArgs(argv[1..])
  }

  function PrintCmd(argv: Argv): seq<Byte> {
    Header(STAR, |argv|) + PrintArgs(argv)
  }

  function PrintAll(cmds: seq<Argv>): seq<Byte> {
    if cmds == [] then [] else PrintCmd(cmds[0]) + PrintAll(cmds[1..])
  }

  /** At least one argument, and lengths that the C types hold. */
  predicate Printable(argv: Argv) {
    1 <= |argv| <= INT_MAX && forall j :: 0 <= j < |argv| ==> |argv[j]| <= LONG_MAX
  }

  predicate AllPrintable(cmds: seq<Argv>) {
    forall i :: 0 <= i < |cmds| ==> Printable(cmds[i])
  }

  lemma {:induction false} PrintArgsAppend(argv: Argv, a: seq<Byte>)
    ensures PrintArgs(argv + [a]) == PrintArgs(argv) + PrintArg(a)
    decreases |argv|
  {
    hide PrintArg;
    if argv == [] {
      assert PrintArgs([a]) == PrintArg(a) + PrintArgs([]);
    } else {
      assert (argv + [a])[1..] == argv[1..] + [a];
      PrintArgsAppend(argv[1..], a);
    }
  }

  lemma {:induction false} PrintAllAppend(cmds: seq<Argv>, more: seq<Argv>)
    ensures PrintAll(cmds + more) == PrintAll(cmds) + PrintAll(more)
    decreases |cmds|
  {
    hide PrintCmd;
    if cmds == [] {
      assert cmds + more == more;
    } else {
      assert (cmds + more)[1..] == cmds[1..] + more;
      PrintAllAppend(cmds[1..], more);
    }
  }

  lemma {:induction false} PrintOne(cmd: Argv)
    ensures PrintAll([cmd]) == PrintCmd(cmd)
  {
    assert PrintAll([cmd]) == PrintCmd(cmd) + PrintAll([]);
  }

  /** catAppendOnlyGenericCommand */
  method CatGenericCommand(dst: seq<Byte>, argv: Argv) returns (r: seq<Byte>)
    ensures r == dst + PrintCmd(argv)
  {
    hide Dec, PrintArg;
    r := dst + ([STAR] + Dec(|argv|) + [CR, LF]);
    var j := 0;
    assert argv[..0] == [] && argv[..|argv|] == argv;
    while j < |argv|
      invariant 0 <= j <= |argv|
      invariant r == dst + (Header(STAR, |argv|) + PrintArgs(argv[..j]))
    {
      assert argv[..j + 1] == argv[..j] + [argv[j]];
      PrintArgsAppend(argv[..j], argv[j]);
      var arg := CatArg(argv[j]);
      r := r + arg;
      j := j + 1;
    }
  }

  method CatArg(a: seq<Byte>) returns (r: seq<Byte>)
    ensures r == PrintArg(a)
  {
    r := [DOLLAR] + Dec(|a|) + [CR, LF];
    r := r + a;
    r := r + [CR, LF];
  }

  // ----- reading numbers -----

  predicate IsDigit(b: Byte) { 48 <= b <= 57 }

  predicate IsSpace(b: Byte) { 9 <= b <= 13 || b == 32 }

  function Digits(s: seq<Byte>, acc: nat): (n: nat)
    ensures n >= acc
    decreases |s|
  {
    if s == [] || !IsDigit(s[0]) then acc else Digits(s[1..], acc * 10 + (s[0] - 48))
  }

  /** atoi and strtol: blanks, a sign, digits; what follows is ignored. */
  function Number(s: seq<Byte>): int
    decreases |s|
  {
    if s == [] then 0
    else if IsSpace(s[0]) then Number(s[1..])
    else if s[0] == 45 then 0 - Digits(s[1..], 0)
    else if s[0] == 43 then Digits(s[1..], 0)
    else Digits(s, 0)
  }

  /** Blanks in front do not count, a sign does, and a text without digits is 0. */
  lemma {:induction false} NumberReads(b: Byte, s: seq<Byte>)
    ensures b in {9, 10, 11, 12, 13, 32} ==> Number([b] + s) == Number(s)
    ensures IsDigit(b) ==> Number([b] + s) == Digits(s, b - 48)
    ensures b == 45 ==> Number([b] + s) == 0 - Digits(s, 0)
    ensures b == 43 ==> Number([b] + s) == Digits(s, 0)
    ensures Number([]) == 0 && (b !in {9, 10, 11, 12, 13, 32, 43, 45} && !IsDigit(b) ==> Number([b] + s) == 0)
  {
    assert ([b] + s)[1..] == s;
  }

  lemma {:induction false} DecIsDigits(n: nat)
    ensures forall i :: 0 <= i < |Dec(n)| ==> IsDigit(Dec(n)[i])
    ensures n > 0 ==> Dec(n)[0] > 48
  {
    if n >= 10 { DecIsDigits(n / 10); }
  }

  lemma {:induction false} DigitsOfDec(n: nat, t: seq<Byte>)
    ensures Digits(Dec(n) + t, 0) == Digits(t, n)
  {
    if n < 10 {
      assert (Dec(n) + t)[1..] == t;
    } else {
      var d: Byte := 48 + n % 10;
      assert Dec(n) + t == Dec(n / 10) + ([d] + t);
      DigitsOfDec(n / 10, [d] + t);
      assert ([d] + t)[1..] == t;
    }
  }

  lemma {:induction false} NumberOfDec(n: nat, t: seq<Byte>)
    requires t == [] || !IsDigit(t[0])
    ensures Number(Dec(n) + t) == n
  {
    DecIsDigits(n);
    assert (Dec(n) + t)[0] == Dec(n)[0];
    DigitsOfDec(n, t);
  }

  function Pow10(k: nat): nat {
    if k == 0 then 1 else 10 * Pow10(k - 1)
  }

  lemma {:induction false} DecLength(n: nat, k: nat)
    requires k > 0 && n < Pow10(k)
    ensures |Dec(n)| <= k
  {
    if n >= 10 {
      assert k > 1 by { assert Pow10(1) == 10 * Pow10(0); }
      assert n / 10 < Pow10(k - 1);
      DecLength(n / 10, k - 1);
    }
  }

  lemma {:induction false} DecFits(n: nat)
    requires n <= LONG_MAX
    ensures |Dec(n)| <= 19
  {
    assert Pow10(4) == 10000;
    assert Pow10(8) == 1_0000_0000;
    assert Pow10(12) == 1_0000_0000_0000;
    assert Pow10(16) == 1_0000_0000_0000_0000;
    assert Pow10(19) == 1000_0000_0000_0000_0000;
    DecLength(n, 19);
  }

  // ----- reading lines -----

  /** How many bytes fgets stores: up to and with the first newline, at most max. */
  function LineLen(s: seq<Byte>, max: nat): (k: nat)
    ensures k <= |s| && k <= max
    ensures s != [] && max > 0 ==> k > 0
    decreases |s|
  {
    if s == [] || max == 0 then 0 else if s[0] == LF then 1 else 1 + LineLen(s[1..], max - 1)
  }

  /** Whether fgets ran into the end of the file. */
  predicate HitsEof(s: seq<Byte>) {
    var k := LineLen(s, LINE_MAX);
    k == |s| && k < LINE_MAX && (k == 0 || s[k - 1] != LF)
  }

  lemma {:induction false} LineOf(a: seq<Byte>, s: seq<Byte>, max: nat)
    requires forall i :: 0 <= i < |a| ==> a[i] != LF
    requires |a| < max
    ensures LineLen(a + ([LF] + s), max) == |a| + 1
    decreases |a|
  {
    var t := a + ([LF] + s);
    if a == [] {
      assert t[0] == LF;
    } else {
      assert t[1..] == a[1..] + ([LF] + s) && t[0] == a[0];
      LineOf(a[1..], s, max - 1);
    }
  }

  lemma {:induction false} LineWithoutEnd(a: seq<Byte>, max: nat)
    requires forall i :: 0 <= i < |a| ==> a[i] != LF
    requires |a| < max
    ensures LineLen(a, max) == |a|
    decreases |a|
  {
    if a != [] { LineWithoutEnd(a[1..], max - 1); }
  }

  /** The header line of a printed length, whatever follows. */
  lemma {:induction false} HeaderLine(c: Byte, n: nat, s: seq<Byte>)
    requires c != LF && n <= LONG_MAX
    ensures var h := Header(c, n);
            && LineLen(h + s, LINE_MAX) == |h| && (h + s)[..|h|] == h && (h + s)[|h|..] == s
            && h[0] == c && Number(h[1..]) == n && |h| > 2 && h[1] != 0
  {
    DecIsDigits(n);
    DecFits(n);
    var a := [c] + Dec(n) + [CR];
    assert Header(c, n) + s == a + ([LF] + s);
    LineOf(a, s, LINE_MAX);
    assert Header(c, n)[1..] == Dec(n) + [CR, LF];
    NumberOfDec(n, [CR, LF]);
  }

  /** A header line cut short: no newline, and a number that is not negative, nor 0 unless n is. */
  lemma {:induction false} HeaderCut(c: Byte, n: nat, t: seq<Byte>)
    requires c != LF && n <= LONG_MAX
    requires t != [] && |t| < |Header(c, n)| && t <= Header(c, n)
    ensures LineLen(t, LINE_MAX) == |t| && HitsEof(t) && t[0] == c && Number(t[1..]) >= 0
    ensures n > 0 && |t| > 1 ==> t[1] != 0 && Number(t[1..]) >= 1
  {
    DecIsDigits(n);
    DecFits(n);
    var h := Header(c, n);
    assert h == [c] + Dec(n) + [CR] + [LF];
    assert forall i :: 0 <= i < |t| ==> t[i] == h[i] && t[i] != LF;
    LineWithoutEnd(t, LINE_MAX);
    if |t| > 1 {
      assert t[1] == h[1] == Dec(n)[0];
      assert t[1..][0] == t[1];
    }
  }

  // ----- parsing -----

  datatype ArgRead = GotArg(arg: seq<Byte>, rest: seq<Byte>) | ShortArg | BadArg

  /** One argument: its length line, its bytes and two more bytes, whatever they are. */
  function ReadArg(s: seq<Byte>): (r: ArgRead)
    ensures r.GotArg? ==> |r.rest| < |s|
  {
    if s == [] then ShortArg else
    var k := LineLen(s, LINE_MAX);
    if s[0] != DOLLAR then BadArg else
    var len := Number(s[1..k]);
    var rest := s[k..];
    if len < 0 then BadArg
    else if |rest| < len || |rest| - len < 2 then ShortArg
    else GotArg(rest[..len], rest[len + 2..])
  }

  datatype CmdRead = GotCmd(argv: Argv, rest: seq<Byte>) | End | Short | Unreadable | Bad

  function ReadArgs(s: seq<Byte>, n: nat, got: Argv): (r: CmdRead)
    ensures r.GotCmd? ==> |r.rest| <= |s| && |r.argv| == |got| + n
    ensures !r.End?
    decreases n
  {
    if n == 0 then GotCmd(got, s) else
    match ReadArg(s)
    case GotArg(arg, rest) => ReadArgs(rest, n - 1, got + [arg])
    case ShortArg => Short
    case BadArg => Bad
  }

  function ReadCmd(s: seq<Byte>): (r: CmdRead)
    ensures r.GotCmd? ==> |r.rest| < |s|
  {
    if s == [] then End else
    var k := LineLen(s, LINE_MAX);
    if s[0] != STAR then Bad
    else if k == 1 || s[1] == 0 then (if HitsEof(s) then Short else Unreadable)
    else var argc := Number(s[1..k]); if argc < 1 then Bad else ReadArgs(s[k..], argc, [])
  }

  /** How loading ends: at the end of the file, at a command cut short, or with exit(1). */
  datatype Loaded = Loaded(cmds: seq<Argv>, validUpTo: nat, ending: Ending)
  datatype Ending = Clean | Truncated | Fatal

  /** The commands of a file of which n bytes are read and s is left. */
  function Load(s: seq<Byte>, n: nat, cmds: seq<Argv>): Loaded
    decreases |s|
  {
    match ReadCmd(s)
    case GotCmd(argv, rest) => Load(rest, n + |s| - |rest|, cmds + [argv])
    case End => Loaded(cmds, n, Clean)
    case Short => Loaded(cmds, n, Truncated)
    case Unreadable => Loaded(cmds, n, Fatal)
    case Bad => Loaded(cmds, n, Fatal)
  }

  // ----- the parser reads what the printer wrote -----

  lemma {:induction false} ReadsArg(a: seq<Byte>, s: seq<Byte>)
    requires |a| <= LONG_MAX
    ensures ReadArg(PrintArg(a) + s) == GotArg(a, s)
  {
    var h, body := Header(DOLLAR, |a|), a + [CR, LF] + s;
    assert PrintArg(a) + s == h + body;
    HeaderLine(DOLLAR, |a|, body);
    assert (h + body)[1..|h|] == h[1..];
    assert body[..|a|] == a && body[|a| + 2..] == s;
    hide Number, LineLen, Header;
  }

  lemma {:induction false} ReadsShort(t: seq<Byte>)
    requires t != [] && LineLen(t, LINE_MAX) == |t| && t[0] == DOLLAR && Number(t[1..]) >= 0
    ensures ReadArg(t) == ShortArg
  {
    assert t[1..|t|] == t[1..];
    hide Number, LineLen;
  }

  lemma {:induction false} CutArg(a: seq<Byte>, t: seq<Byte>)
    requires |a| <= LONG_MAX && |t| < |PrintArg(a)| && t <= PrintArg(a)
    ensures ReadArg(t) == ShortArg
  {
    var h, body := Header(DOLLAR, |a|), a + [CR, LF];
    if t != [] {
      if |t| < |h| {
        assert t == PrintArg(a)[..|t|] == h[..|t|];
        HeaderCut(DOLLAR, |a|, t);
        hide Number, LineLen, Header;
        ReadsShort(t);
      } else {
        var rest := t[|h|..];
        assert t == PrintArg(a)[..|t|] == h + rest;
        HeaderLine(DOLLAR, |a|, rest);
        assert t[1..|h|] == h[1..];
        hide Number, LineLen, Header;
        assert |rest| < |a| + 2;
      }
    }
  }

  lemma {:induction false} ReadsArgs(argv: Argv, s: seq<Byte>, got: Argv)
    requires forall j :: 0 <= j < |argv| ==> |argv[j]| <= LONG_MAX
    ensures ReadArgs(PrintArgs(argv) + s, |argv|, got) == GotCmd(got + argv, s)
    decreases |argv|
  {
    hide PrintArg, ReadArg;
    if argv == [] {
      assert PrintArgs(argv) + s == s && got + argv == got;
    } else {
      var rest := PrintArgs(argv[1..]) + s;
      assert PrintArgs(argv) + s == PrintArg(argv[0]) + rest;
      ReadsArg(argv[0], rest);
      ReadsArgs(argv[1..], s, got + [argv[0]]);
      assert got + [argv[0]] + argv[1..] == got + argv;
    }
  }

  lemma {:induction false} CutArgs(argv: Argv, t: seq<Byte>, got: Argv)
    requires forall j :: 0 <= j < |argv| ==> |argv[j]| <= LONG_MAX
    requires |t| < |PrintArgs(argv)| && t <= PrintArgs(argv)
    ensures ReadArgs(t, |argv|, got) == Short
    decreases |argv|
  {
    hide PrintArg, ReadArg;
    var p := PrintArg(argv[0]);
    assert t == PrintArgs(argv)[..|t|];
    if |t| < |p| {
      assert t == p[..|t|];
      CutArg(argv[0], t);
    } else {
      var rest := t[|p|..];
      assert t == p + rest && rest == PrintArgs(argv[1..])[..|rest|];
      ReadsArg(argv[0], rest);
      CutArgs(argv[1..], rest, got + [argv[0]]);
    }
  }

  lemma {:induction false} ReadsCmd(argv: Argv, s: seq<Byte>)
    requires Printable(argv)
    ensures ReadCmd(PrintCmd(argv) + s) == GotCmd(argv, s)
  {
    var h, body := Header(STAR, |argv|), PrintArgs(argv) + s;
    assert PrintCmd(argv) + s == h + body;
    HeaderLine(STAR, |argv|, body);
    assert (h + body)[1..|h|] == h[1..] && (h + body)[1] == h[1];
    hide Number, LineLen, Header, PrintArgs, ReadArgs;
    ReadsArgs(argv, s, []);
    assert [] + argv == argv;
  }

  lemma {:induction false} CutCmd(argv: Argv, t: seq<Byte>)
    requires Printable(argv) && t != [] && |t| < |PrintCmd(argv)| && t <= PrintCmd(argv)
    ensures ReadCmd(t) == Short
  {
    var h := Header(STAR, |argv|);
    assert t == PrintCmd(argv)[..|t|];
    if |t| < |h| {
      assert t == h[..|t|];
      HeaderCut(STAR, |argv|, t);
      assert t[|t|..] == [] && t[1..|t|] == t[1..];
      hide Number, LineLen, Header, PrintArgs;
    } else {
      var rest := t[|h|..];
      assert t == h + rest && rest == PrintArgs(argv)[..|rest|];
      HeaderLine(STAR, |argv|, rest);
      assert t[1..|h|] == h[1..] && t[1] == h[1];
      hide Number, LineLen, Header, PrintArgs, ReadArgs;
      CutArgs(argv, rest, []);
    }
  }

  /** Printed commands and then something that reads as no command. */
  lemma {:induction false} LoadsThen(cmds: seq<Argv>, t: seq<Byte>, n: nat, done: seq<Argv>)
    requires AllPrintable(cmds)
    ensures Load(PrintAll(cmds) + t, n, done) == Load(t, n + |PrintAll(cmds)|, done + cmds)
    decreases |cmds|
  {
    hide PrintCmd, ReadCmd;
    if cmds == [] {
      assert PrintAll(cmds) + t == t && done + cmds == done;
    } else {
      var rest := PrintAll(cmds[1..]) + t;
      assert PrintAll(cmds) + t == PrintCmd(cmds[0]) + rest;
      ReadsCmd(cmds[0], rest);
      LoadsThen(cmds[1..], t, n + |PrintCmd(cmds[0])|, done + [cmds[0]]);
      assert done + [cmds[0]] + cmds[1..] == done + cmds;
    }
  }

  /** Loading a concatenation of printed commands gives exactly those commands. */
  lemma {:induction false} RoundTrip(cmds: seq<Argv>)
    requires AllPrintable(cmds)
    ensures Load(PrintAll(cmds), 0, []) == Loaded(cmds, |PrintAll(cmds)|, Clean)
  {
    hide PrintAll, ReadCmd, Load;
    NothingRead();
    LoadsCut(cmds, []);
    assert PrintAll(cmds) + [] == PrintAll(cmds);
  }

  lemma {:induction false} NothingRead()
    ensures ReadCmd([]) == End
  {
  }

  /** How many of the commands are printed wholly within the first k bytes. */
  function WholeBefore(cmds: seq<Argv>, k: nat): (j: nat)
    ensures j <= |cmds|
    ensures j < |cmds| ==> k < |PrintAll(cmds)|
    decreases |cmds|
  {
    if cmds == [] || k < |PrintCmd(cmds[0])| then 0 else 1 + WholeBefore(cmds[1..], k - |PrintCmd(cmds[0])|)
  }

  /** j commands and no more: the cut falls into, or just before, the next one. */
  lemma {:induction false} WholeBeforeIs(cmds: seq<Argv>, k: nat)
    requires k <= |PrintAll(cmds)|
    ensures var j := WholeBefore(cmds, k);
            && |PrintAll(cmds[..j])| <= k
            && (j < |cmds| ==> k < |PrintAll(cmds[..j + 1])|)
            && (j == |cmds| ==> k == |PrintAll(cmds)|)
    decreases |cmds|
  {
    hide PrintCmd;
    if cmds == [] {
    } else if k < |PrintCmd(cmds[0])| {
      assert cmds[..1] == [cmds[0]];
      PrintOne(cmds[0]);
    } else {
      WholeBeforeIs(cmds[1..], k - |PrintCmd(cmds[0])|);
      var j := WholeBefore(cmds, k);
      assert cmds[..j][1..] == cmds[1..][..j - 1];
      if j < |cmds| { assert cmds[..j + 1][1..] == cmds[1..][..j]; }
      assert cmds[..|cmds|] == cmds;
    }
  }

  lemma {:induction false} LoadsCut(cmds: seq<Argv>, t: seq<Byte>)
    requires AllPrintable(cmds) && ReadCmd(t) == if t == [] then End else Short
    ensures var end := |PrintAll(cmds)|;
            Load(PrintAll(cmds) + t, 0, []) == Loaded(cmds, end, if t == [] then Clean else Truncated)
  {
    hide PrintAll, ReadCmd;
    LoadsThen(cmds, t, 0, []);
    assert [] + cmds == cmds;
  }

  /** A log cut at any byte loads as exactly the commands that are wholly before the cut; valid_up_to is the
      end of the last one; and the loader says that the file is cut short unless it is cut between commands. */
  lemma {:induction false} CutAnywhere(cmds: seq<Argv>, k: nat)
    requires AllPrintable(cmds) && k <= |PrintAll(cmds)|
    ensures var j := WholeBefore(cmds, k); var end := |PrintAll(cmds[..j])|;
            Load(PrintAll(cmds)[..k], 0, []) == Loaded(cmds[..j], end, if end == k then Clean else Truncated)
  {
    WholeBeforeIs(cmds, k);
    var j := WholeBefore(cmds, k);
    hide PrintAll, PrintCmd, ReadCmd, WholeBefore;
    CutSplit(cmds, j, k);
    var t := PrintAll(cmds[j..])[..k - |PrintAll(cmds[..j])|];
    CutRest(cmds, j, k, t);
    LoadsCut(cmds[..j], t);
  }

  lemma {:induction false} CutSplit(cmds: seq<Argv>, j: nat, k: nat)
    requires j <= |cmds| && |PrintAll(cmds[..j])| <= k <= |PrintAll(cmds)|
    ensures k - |PrintAll(cmds[..j])| <= |PrintAll(cmds[j..])|
    ensures PrintAll(cmds)[..k] == PrintAll(cmds[..j]) + PrintAll(cmds[j..])[..k - |PrintAll(cmds[..j])|]
  {
    hide PrintAll;
    assert cmds == cmds[..j] + cmds[j..];
    PrintAllAppend(cmds[..j], cmds[j..]);
  }

  lemma {:induction false} CutRest(cmds: seq<Argv>, j: nat, k: nat, t: seq<Byte>)
    requires AllPrintable(cmds) && j <= |cmds| && |PrintAll(cmds[..j])| <= k
    requires j < |cmds| ==> k < |PrintAll(cmds[..j + 1])|
    requires t <= PrintAll(cmds[j..]) && |t| == k - |PrintAll(cmds[..j])|
    ensures ReadCmd(t) == if t == [] then End else Short
  {
    if t != [] && j < |cmds| {
      assert cmds[..j + 1] == cmds[..j] + [cmds[j]];
      assert cmds[j..] == [cmds[j]] + cmds[j + 1..];
      PrintAllAppend(cmds[..j], [cmds[j]]);
      PrintAllAppend([cmds[j]], cmds[j + 1..]);
      PrintOne(cmds[j]);
      hide PrintAll, PrintCmd, ReadCmd;
      assert t == PrintAll(cmds[j..])[..|t|] == PrintCmd(cmds[j])[..|t|];
      CutCmd(cmds[j], t);
    }
  }

  // ----- an example -----

  lemma {:induction false} PrintedArgs()
    ensures PrintArg([83, 69, 84]) == [36, 51, 13, 10, 83, 69, 84, 13, 10]
    ensures PrintArg([107]) == [36, 49, 13, 10, 107, 13, 10]
    ensures PrintArg([49, 50, 51, 52, 53, 54, 55, 56, 57, 48])
            == [36, 49, 48, 13, 10, 49, 50, 51, 52, 53, 54, 55, 56, 57, 48, 13, 10]
  {
    assert Dec(10) == Dec(1) + [48] == [49, 48];
  }

  /** SET k 1234567890 in the log: *3 $3 SET $1 k $10 1234567890, each with its line end. */
  lemma {:induction false} PrintedSet()
    ensures PrintCmd([[83, 69, 84], [107], [49, 50, 51, 52, 53, 54, 55, 56, 57, 48]])
            == [42, 51, 13, 10] + ([36, 51, 13, 10, 83, 69, 84, 13, 10] + ([36, 49, 13, 10, 107, 13, 10]
               + [36, 49, 48, 13, 10, 49, 50, 51, 52, 53, 54, 55, 56, 57, 48, 13, 10]))
  {
    hide PrintArg;
    PrintedArgs();
    var c: seq<Byte> := [49, 50, 51, 52, 53, 54, 55, 56, 57, 48];
    assert PrintArgs([c]) == PrintArg(c) + PrintArgs([]);
    assert [[107], c][1..] == [c];
    assert PrintArgs([[107], c]) == PrintArg([107]) + PrintArgs([c]);
    assert [[83, 69, 84], [107], c][1..] == [[107], c];
    assert Dec(3) == [51];
  }
}
