/** The file that a rewrite produces for databases of strings and lists, and that loading it rebuilds them. */
module AofRewrite {
  import opened Bytes
  import opened AofFormat
  import opened AofReplay
  import AofServer
  import Slices

  type Key = seq<Byte>

  datatype Value = Str(s: seq<Byte>) | List(items: seq<seq<Byte>>)

  const ITEMS_PER_CMD: nat := 64
  const SET: seq<Byte> := [83, 69, 84]
  const RPUSH: seq<Byte> := [82, 80, 85, 83, 72]

  predicate Fits(s: seq<Byte>) { |s| <= LONG_MAX }

  predicate AllFit(items: seq<seq<Byte>>) { forall i :: 0 <= i < |items| ==> Fits(items[i]) }

  predicate Sound(v: Value) {
    match v
    case Str(s) => Fits(s)
    case List(items) => items != [] && AllFit(items)
  }

  type Db = map<Key, Value>
  type Dataset = map<nat, Db>

  /** Only databases that are not empty, and in them no empty lists; lengths that the C types hold. */
  ghost predicate Sane(d: Dataset) {
    forall j <- d :: j <= INT_MAX && SaneDb(d[j])
  }

  ghost predicate SaneDb(m: Db) {
    m != map[] && forall k <- m :: Fits(k) && Sound(m[k])
  }

  function DbAt(d: Dataset, db: nat): Db {
    if db in d then d[db] else map[]
  }

  function WithDb(d: Dataset, db: nat, m: Db): Dataset {
    if m == map[] then d else d[db := m]
  }

  function Put(d: Dataset, db: nat, k: Key, v: Value): Dataset {
    d[db := DbAt(d, db)[k := v]]
  }

  /** SET and RPUSH; what other commands do is of no concern here. */
  function Exec(d: Dataset, db: nat, argv: Argv): Dataset {
    if db > INT_MAX || |argv| < 3 || !AllFit(argv) then d
    else if argv[0] == SET && |argv| == 3 then Put(d, db, argv[1], Str(argv[2]))
    else if argv[0] == RPUSH then Push(d, db, argv[1], argv[2..])
    else d
  }

  function Push(d: Dataset, db: nat, k: Key, items: seq<seq<Byte>>): Dataset
  {
    var m := DbAt(d, db);
    if k !in m then Put(d, db, k, List(items))
    else if m[k].List? then Put(d, db, k, List(m[k].items + items))
    else d
  }

  // ----- one key -----

  /** RPUSH commands with at most 64 items each. */
  function Batches(k: Key, items: seq<seq<Byte>>): seq<Argv>
    decreases |items|
  {
    if items == [] then [] else
    var n := if |items| > ITEMS_PER_CMD then ITEMS_PER_CMD else |items|;
    [[RPUSH, k] + items[..n]] + Batches(k, items[n..])
  }

  function KeyCmds(k: Key, v: Value): seq<Argv> {
    match v
    case Str(s) => [[SET, k, s]]
    case List(items) => Batches(k, items)
  }

  lemma {:induction false} PushStep(d: Dataset, db: nat, k: Key, batch: seq<seq<Byte>>)
    requires db <= INT_MAX && Fits(k) && batch != [] && AllFit(batch)
    ensures Step(Exec, At(d, db), [RPUSH, k] + batch) == At(Push(d, db, k, batch), db)
  {
    var argv := [RPUSH, k] + batch;
    assert argv[0] == RPUSH && argv[1] == k && argv[2..] == batch;
    assert RPUSH != SELECT && RPUSH != SET by { assert |RPUSH| == 5 && |SELECT| == 6 && |SET| == 3; }
    assert AllFit(argv) by { assert Fits(RPUSH); }
  }

  lemma {:induction false} PushPut(d: Dataset, db: nat, k: Key, have: seq<seq<Byte>>, batch: seq<seq<Byte>>)
    requires if have == [] then k !in DbAt(d, db) else k in DbAt(d, db) && DbAt(d, db)[k] == List(have)
    ensures Push(d, db, k, batch) == Put(d, db, k, List(have + batch))
    ensures DbAt(Put(d, db, k, List(have + batch)), db) == DbAt(d, db)[k := List(have + batch)]
  {
    if have == [] { assert have + batch == batch; }
  }

  lemma {:induction false} PutTwice(d: Dataset, db: nat, k: Key, v: Value, w: Value)
    ensures Put(Put(d, db, k, v), db, k, w) == Put(d, db, k, w)
  {
    assert DbAt(Put(d, db, k, v), db)[k := w] == DbAt(d, db)[k := w];
  }

  lemma {:induction false} OneBatch(d: Dataset, db: nat, k: Key, have: seq<seq<Byte>>, batch: seq<seq<Byte>>)
    requires db <= INT_MAX && Fits(k) && AllFit(batch) && 0 < |batch| <= ITEMS_PER_CMD
    requires if have == [] then k !in DbAt(d, db) else k in DbAt(d, db) && DbAt(d, db)[k] == List(have)
    ensures Replay(Exec, At(d, db), [[RPUSH, k] + batch]) == At(Put(d, db, k, List(have + batch)), db)
    ensures AllPrintable([[RPUSH, k] + batch])
  {
    PushStep(d, db, k, batch);
    PushPut(d, db, k, have, batch);
    var cmd := [RPUSH, k] + batch;
    assert Printable(cmd);
    hide Exec, Push, Put, DbAt, Step, Printable;
    ReplaySnoc(Exec, At(d, db), [], cmd);
    assert [] + [cmd] == [cmd];
  }

  /** The batches push the items behind those that the list has. */
  lemma {:induction false} BatchesPush(d: Dataset, db: nat, k: Key, have: seq<seq<Byte>>, items: seq<seq<Byte>>)
    requires db <= INT_MAX && Fits(k) && AllFit(have) && AllFit(items) && items != []
    requires if have == [] then k !in DbAt(d, db) else k in DbAt(d, db) && DbAt(d, db)[k] == List(have)
    ensures Replay(Exec, At(d, db), Batches(k, items)) == At(Put(d, db, k, List(have + items)), db)
    ensures AllPrintable(Batches(k, items))
    decreases |items|
  {
    var n := if |items| > ITEMS_PER_CMD then ITEMS_PER_CMD else |items|;
    var batch, rest := items[..n], items[n..];
    assert have + batch + rest == have + items;
    OneBatch(d, db, k, have, batch);
    PushPut(d, db, k, have, batch);
    var d' := Put(d, db, k, List(have + batch));
    PutTwice(d, db, k, List(have + batch), List(have + items));
    hide Exec, Push, Put, Step, Printable;
    if rest == [] {
      assert Batches(k, items) == [[RPUSH, k] + batch] && items == batch;
    } else {
      assert DbAt(d', db)[k] == List(have + batch);
      hide DbAt, Replay;
      BatchesPush(d', db, k, have + batch, rest);
      ReplayAppend(Exec, At(d, db), [[RPUSH, k] + batch], Batches(k, rest));
      assert Batches(k, items) == [[RPUSH, k] + batch] + Batches(k, rest);
    }
  }

  lemma {:induction false} KeyRebuilt(d: Dataset, db: nat, k: Key, v: Value)
    requires db <= INT_MAX && Fits(k) && Sound(v) && k !in DbAt(d, db)
    ensures Replay(Exec, At(d, db), KeyCmds(k, v)) == At(Put(d, db, k, v), db)
    ensures AllPrintable(KeyCmds(k, v))
  {
    match v
    case Str(s) =>
      var cmd := [SET, k, s];
      ReplaySnoc(Exec, At(d, db), [], cmd);
      assert [] + [cmd] == [cmd];
      assert SET != SELECT by { assert |SELECT| == 6 && |SET| == 3; }
      assert AllFit(cmd);
    case List(items) =>
      BatchesPush(d, db, k, [], items);
      assert [] + items == items;
  }

  // ----- the whole file -----

  /** The entries of a database in the order in which the iterator returns them. */
  type Entries = seq<(Key, Value)>

  function KeysOf(es: Entries): set<Key> { set i | 0 <= i < |es| :: es[i].0 }

  predicate Lists(es: Entries, m: Db) {
    && (forall i :: 0 <= i < |es| ==> es[i].0 in m && m[es[i].0] == es[i].1)
    && (forall k <- m :: k in KeysOf(es))
    && (forall i, j :: 0 <= i < j < |es| ==> es[i].0 != es[j].0)
  }

  function DbCmds(es: Entries): seq<Argv> {
    if es == [] then [] else DbCmds(es[..|es| - 1]) + KeyCmds(es[|es| - 1].0, es[|es| - 1].1)
  }

  lemma {:induction false} ListsFront(es: Entries, m: Db)
    requires Lists(es, m) && es != []
    ensures var k := es[|es| - 1].0; Lists(es[..|es| - 1], m - {k}) && k in m && m[k] == es[|es| - 1].1
  {
    var n := |es| - 1;
    var k := es[n].0;
    forall x | x in m - {k} ensures x in KeysOf(es[..n]) {
      var i :| 0 <= i < |es| && es[i].0 == x;
      assert es[..n][i] == es[i];
    }
  }

  lemma {:induction false} NoEntries(m: Db)
    requires Lists([], m)
    ensures m == map[]
  {
    assert KeysOf([]) == {};
  }

  /** One more entry behind those that are rebuilt. */
  lemma {:induction false} OneMore(d: Dataset, db: nat, es: Entries, m: Db)
    requires db <= INT_MAX && db !in d && Lists(es, m) && SaneDb(m) && es != []
    ensures var k, v := es[|es| - 1].0, es[|es| - 1].1; var cmds := KeyCmds(k, v);
            && AllPrintable(cmds) && m != map[] && k in m && Lists(es[..|es| - 1], m - {k})
            && Replay(Exec, At(WithDb(d, db, m - {k}), db), cmds) == At(WithDb(d, db, m), db)
  {
    var k, v := es[|es| - 1].0, es[|es| - 1].1;
    ListsFront(es, m);
    var d' := WithDb(d, db, m - {k});
    assert DbAt(d', db) == m - {k};
    assert (m - {k})[k := v] == m;
    KeyRebuilt(d', db, k, v);
    assert Put(d', db, k, v) == WithDb(d, db, m);
    hide Replay, Lists, Exec, Printable;
  }

  lemma {:induction false} DbRebuilt(d: Dataset, db: nat, es: Entries, m: Db)
    requires db <= INT_MAX && db !in d && Lists(es, m) && (m == map[] || SaneDb(m))
    ensures AllPrintable(DbCmds(es))
    ensures Replay(Exec, At(d, db), DbCmds(es)) == At(WithDb(d, db, m), db)
    decreases |es|
  {
    if es == [] {
      NoEntries(m);
    } else {
      var n := |es| - 1;
      var k := es[n].0;
      assert k in m;
      OneMore(d, db, es, m);
      hide Exec, Step, Printable, Lists, WithDb, Replay, KeyCmds;
      DbRebuilt(d, db, es[..n], m - {k});
      ReplayAppend(Exec, At(d, db), DbCmds(es[..n]), KeyCmds(k, es[n].1));
    }
  }

  /** The listings of the databases j and up. */
  ghost predicate ListsAll(dbs: seq<Entries>, d: Dataset) {
    && |dbs| <= INT_MAX + 1
    && (forall j <- d :: j < |dbs|)
    && (forall j :: 0 <= j < |dbs| ==> Lists(dbs[j], DbAt(d, j)))
  }

  /** The first n databases: those that are empty are passed over. */
  function FileCmds(dbs: seq<Entries>): seq<Argv> {
    if dbs == [] then [] else
    var j := |dbs| - 1;
    FileCmds(dbs[..j]) + if dbs[j] == [] then [] else [SelectCmd(j)] + DbCmds(dbs[j])
  }

  lemma {:induction false} OneDb(d: Dataset, p: nat, db: nat, es: Entries, m: Db)
    requires db <= INT_MAX && db !in d && Lists(es, m) && es != [] && SaneDb(m)
    ensures AllPrintable([SelectCmd(db)] + DbCmds(es)) && m != map[]
    ensures Replay(Exec, At(d, p), [SelectCmd(db)] + DbCmds(es)) == At(WithDb(d, db, m), db)
  {
    var s := SelectCmd(db);
    assert es[0].0 in m;
    DecPrintable(db);
    DbRebuilt(d, db, es, m);
    SelectStep(Exec, At(d, p), db);
    hide Exec, Step, Printable, DbCmds;
    ReplaySnoc(Exec, At(d, p), [], s);
    assert [] + [s] == [s];
    ReplayAppend(Exec, At(d, p), [s], DbCmds(es));
  }

  /** Loading the rewritten file rebuilds the dataset, in whatever order the keys were iterated. */
  lemma {:induction false} FileRebuilds(dbs: seq<Entries>, d: Dataset)
    requires ListsAll(dbs, d) && Sane(d)
    ensures AllPrintable(FileCmds(dbs))
    ensures Replay(Exec, At(map[], 0), FileCmds(dbs)).data == d
    decreases |dbs|
  {
    hide Exec, Step, Printable, DbCmds;
    if dbs == [] {
      assert d == map[];
    } else {
      var j := |dbs| - 1;
      var m, d' := DbAt(d, j), d - {j};
      WithoutLast(dbs, d);
      hide ListsAll, Lists, Replay, WithDb, DbAt;
      FileRebuilds(dbs[..j], d');
      var p := Replay(Exec, At(map[], 0), FileCmds(dbs[..j]));
      if dbs[j] == [] {
        assert FileCmds(dbs) == FileCmds(dbs[..j]) + [];
        assert FileCmds(dbs) == FileCmds(dbs[..j]);
      } else {
        OneDb(d', p.db, j, dbs[j], m);
        ReplayAppend(Exec, At(map[], 0), FileCmds(dbs[..j]), [SelectCmd(j)] + DbCmds(dbs[j]));
      }
    }
  }

  lemma {:induction false} WithoutLast(dbs: seq<Entries>, d: Dataset)
    requires ListsAll(dbs, d) && Sane(d) && dbs != []
    ensures var j := |dbs| - 1; var m, d', es := DbAt(d, j), d - {j}, dbs[j];
            && ListsAll(dbs[..j], d') && Sane(d') && Lists(es, m) && j !in d' && WithDb(d', j, m) == d
            && (if es == [] then m == map[] && d' == d else SaneDb(m))
  {
    var j := |dbs| - 1;
    var m, d', es := DbAt(d, j), d - {j}, dbs[j];
    forall i | 0 <= i < j ensures Lists(dbs[..j][i], DbAt(d', i)) {
      assert DbAt(d', i) == DbAt(d, i);
    }
    if es == [] {
      NoEntries(m);
    } else {
      assert es[0].0 in m;
    }
  }

  // ----- the loop that writes a list -----

  /** What of a list is still to be written when i items are, and rest more belong to the command at hand. */
  function Remaining(k: Key, list: seq<seq<Byte>>, i: nat, rest: nat): seq<Byte>
    requires i + rest <= |list|
  {
    PrintArgs(list[i..i + rest]) + PrintAll(Batches(k, list[i + rest..]))
  }

  lemma {:induction false} PrintTwo(x: seq<Byte>, y: seq<Byte>, more: seq<seq<Byte>>)
    ensures PrintArgs([x, y] + more) == PrintArg(x) + PrintArg(y) + PrintArgs(more)
  {
    hide PrintArg;
    var argv := [x, y] + more;
    assert argv[1..] == [y] + more && ([y] + more)[1..] == more;
    assert PrintArgs(argv) == PrintArg(x) + PrintArgs([y] + more);
    assert PrintArgs([y] + more) == PrintArg(y) + PrintArgs(more);
    Slices.Assoc(PrintArg(x), PrintArg(y), PrintArgs(more));
  }

  function Head(k: Key, n: nat): seq<Byte> {
    Header(STAR, 2 + n) + (PrintArg(RPUSH) + PrintArg(k))
  }

  lemma {:induction false} PrintBatch(k: Key, batch: seq<seq<Byte>>)
    ensures PrintCmd([RPUSH, k] + batch) == Head(k, |batch|) + PrintArgs(batch)
  {
    hide PrintArgs, PrintArg, Header;
    PrintTwo(RPUSH, k, batch);
    Slices.Assoc(Header(STAR, 2 + |batch|), PrintArg(RPUSH) + PrintArg(k), PrintArgs(batch));
  }

  lemma {:induction false} BatchesStep(k: Key, items: seq<seq<Byte>>, n: nat)
    requires items != [] && n == Min(ITEMS_PER_CMD, |items|)
    ensures PrintAll(Batches(k, items)) == Head(k, n) + PrintArgs(items[..n]) + PrintAll(Batches(k, items[n..]))
  {
    hide PrintCmd, PrintArgs, Head;
    PrintBatch(k, items[..n]);
    var cmd := [RPUSH, k] + items[..n];
    assert Batches(k, items) == [cmd] + Batches(k, items[n..]);
    PrintOne(cmd);
    PrintAllAppend([cmd], Batches(k, items[n..]));
  }

  lemma {:induction false} StartBatch(k: Key, list: seq<seq<Byte>>, i: nat)
    requires i < |list|
    ensures var n := Min(ITEMS_PER_CMD, |list| - i);
            Remaining(k, list, i, 0) == Head(k, n) + Remaining(k, list, i, n)
  {
    hide PrintAll, Batches, Head, PrintArg;
    var n := Min(ITEMS_PER_CMD, |list| - i);
    var items := list[i..];
    assert items[..n] == list[i..i + n] && items[n..] == list[i + n..];
    assert list[i..i] == [] && PrintArgs([]) == [];
    BatchesStep(k, items, n);
    Slices.Assoc(Head(k, n), PrintArgs(items[..n]), PrintAll(Batches(k, items[n..])));
  }

  lemma {:induction false} NextItem(k: Key, list: seq<seq<Byte>>, i: nat, rest: nat)
    requires rest > 0 && i + rest <= |list|
    ensures Remaining(k, list, i, rest) == PrintArg(list[i]) + Remaining(k, list, i + 1, rest - 1)
  {
    assert list[i..i + rest][1..] == list[i + 1..i + rest];
    hide PrintArg, PrintAll, Batches;
  }

  lemma {:induction false} Ends(k: Key, list: seq<seq<Byte>>)
    ensures Remaining(k, list, |list|, 0) == [] && Remaining(k, list, 0, 0) == PrintAll(Batches(k, list))
  {
    assert list[|list|..] == [] && list[0..] == list && list[0..0] == [];
  }

  /** rewriteListObject: count items of the command at hand are written, and left items of the list are not. */
  method RewriteList(k: Key, list: seq<seq<Byte>>) returns (out: seq<Byte>)
    ensures out == PrintAll(Batches(k, list))
  {
    hide Remaining, Head, PrintArg, Batches, PrintAll;
    Ends(k, list);
    out := [];
    var count, left, i := 0, |list|, 0;
    ghost var rest := 0;
    while i < |list|
      invariant 0 <= i <= |list| && left == |list| - i && 0 <= count < ITEMS_PER_CMD
      invariant rest == if count == 0 then 0 else Min(ITEMS_PER_CMD - count, left)
      invariant out + Remaining(k, list, i, rest) == PrintAll(Batches(k, list))
    {
      if count == 0 {
        var cmdItems := if left > ITEMS_PER_CMD then ITEMS_PER_CMD else left;
        StartBatch(k, list, i);
        Slices.Assoc(out, Head(k, cmdItems), Remaining(k, list, i, cmdItems));
        var head := WriteHead(k, cmdItems);
        out := out + head;
        rest := cmdItems;
      }
      NextItem(k, list, i, rest);
      Slices.Assoc(out, PrintArg(list[i]), Remaining(k, list, i + 1, rest - 1));
      out := out + PrintArg(list[i]);
      count, rest, i := count + 1, rest - 1, i + 1;
      if count == ITEMS_PER_CMD { count := 0; }
      left := left - 1;
    }
  }

  method WriteHead(k: Key, cmdItems: nat) returns (head: seq<Byte>)
    ensures head == Head(k, cmdItems)
  {
    head := Header(STAR, 2 + cmdItems);
    head := head + (PrintArg(RPUSH) + PrintArg(k));
  }

  function Min(a: int, b: int): int { if a < b then a else b }

  // ----- a server over such datasets -----

  /** Some order of the entries. */
  ghost function Listing(m: Db): (es: Entries)
    ensures Lists(es, m)
  {
    if m == map[] then [] else
    var k :| k in m;
    var es := Listing(m - {k});
    ListsSnoc(es, m, k);
    es + [(k, m[k])]
  }

  lemma {:induction false} ListsSnoc(es: Entries, m: Db, k: Key)
    requires k in m && Lists(es, m - {k})
    ensures Lists(es + [(k, m[k])], m)
  {
    var es' := es + [(k, m[k])];
    forall x | x in m ensures x in KeysOf(es') {
      if x == k {
        assert es'[|es|].0 == x;
      } else {
        assert x in KeysOf(es);
        var i :| 0 <= i < |es| && es[i].0 == x;
        assert es'[i].0 == x;
      }
    }
  }

  /** What the child writes. */
  ghost function Dump(d: Dataset): seq<Argv> {
    FileCmds(seq(INT_MAX + 1, j requires 0 <= j => Listing(DbAt(d, j))))
  }

  lemma {:induction false} SanePut(d: Dataset, db: nat, k: Key, v: Value)
    requires Sane(d) && db <= INT_MAX && Fits(k) && Sound(v)
    ensures Sane(Put(d, db, k, v))
  {
    var m := DbAt(d, db)[k := v];
    assert k in m;
    assert SaneDb(m);
  }

  lemma {:induction false} SaneExec(d: Dataset, db: nat, argv: Argv)
    requires Sane(d)
    ensures Sane(Exec(d, db, argv))
  {
    if db <= INT_MAX && |argv| >= 3 && AllFit(argv) {
      var k, items, m := argv[1], argv[2..], DbAt(d, db);
      assert Fits(k) && Fits(argv[2]) && AllFit(items);
      if argv[0] == SET && |argv| == 3 {
        SanePut(d, db, k, Str(argv[2]));
      } else if argv[0] == RPUSH {
        if k !in m {
          SanePut(d, db, k, List(items));
        } else if m[k].List? {
          assert Sound(m[k]) by { assert SaneDb(m); }
          SanePut(d, db, k, List(m[k].items + items));
        }
      }
    }
  }

  /** Strings and lists meet what a server demands of its commands and of its rewritten file. */
  lemma {:induction false} ServerRebuilds()
    ensures AofServer.Rebuilds(Exec, (d: Dataset) => Sane(d), map[], Dump)
  {
    hide Sane, Exec, Dump, Printable;
    forall d: Dataset, db: nat, argv: Argv | Sane(d) ensures Sane(Exec(d, db, argv)) {
      SaneExec(d, db, argv);
    }
    EmptySane();
    forall d: Dataset | Sane(d) ensures AllPrintable(Dump(d)) && Replay(Exec, At(map[], 0), Dump(d)).data == d {
      DumpRebuilds(d);
    }
  }

  lemma {:induction false} EmptySane()
    ensures Sane(map[])
  {
  }

  lemma {:induction false} DumpRebuilds(d: Dataset)
    requires Sane(d)
    ensures AllPrintable(Dump(d)) && Replay(Exec, At(map[], 0), Dump(d)).data == d
  {
    var dbs := seq(INT_MAX + 1, j requires 0 <= j => Listing(DbAt(d, j)));
    FileRebuilds(dbs, d);
  }
}
