/** The part of the server that keeps the append-only file: writes, flushes, background rewrites, switching the
    file on and off, and starting again from the file. What the operating system does comes in as parameters. */
module AofServer {
  import opened Bytes
  import opened AofFormat
  import opened AofReplay
  import opened AofRewriteBuffer
  import AofLoad

  datatype AofState = Off | On | WaitRewrite
  datatype Fsync = No | Always | Everysec
  /** aof_fd: -1, a descriptor that is open, or one that startAppendOnly closed and did not forget. */
  datatype Descriptor = Closed | Opened | Stale
  /** What write returns: the number of bytes, or -1. */
  datatype Written = Wrote(n: nat) | Failed

  /** Executing the commands of a rewritten file on an empty dataset rebuilds the dataset that was rewritten, if
      that is a valid one, as all are that come about. */
  ghost predicate Rebuilds<D(!new)>(exec: (D, nat, Argv) -> D, valid: D -> bool, empty: D, dump: D -> seq<Argv>) {
    && valid(empty)
    && (forall d, db, argv :: valid(d) ==> valid(exec(d, db, argv)))
    && (forall d :: valid(d) ==> AllPrintable(dump(d)) && Replay(exec, At(empty, 0), dump(d)).data == d)
  }

  function Dumped<D>(dump: D -> seq<Argv>, d: D): seq<Argv> {
    dump(d)
  }

  /** Where the log of a child's file leads to. */
  ghost function Forked<D>(exec: (D, nat, Argv) -> D, empty: D, dump: D -> seq<Argv>, d: D): Position<D> {
    Replay(exec, At(empty, 0), Dumped(dump, d))
  }

  ghost predicate Allowed<D>(valid: D -> bool, d: D) {
    valid(d)
  }

  lemma {:induction false} DumpPrintable<D(!new)>(exec: (D, nat, Argv) -> D, valid: D -> bool, empty: D,
                                                  dump: D -> seq<Argv>, d: D)
    requires Rebuilds(exec, valid, empty, dump) && Allowed(valid, d)
    ensures AllPrintable(Dumped(dump, d)) && Replay(exec, At(empty, 0), Dumped(dump, d)).data == d
  {
  }

  lemma {:induction false} ExecValid<D(!new)>(exec: (D, nat, Argv) -> D, valid: D -> bool, empty: D,
                                              dump: D -> seq<Argv>, d: D, db: nat, argv: Argv)
    requires Rebuilds(exec, valid, empty, dump) && Allowed(valid, d)
    ensures Allowed(valid, exec(d, db, argv))
  {
  }

  lemma {:induction false} ReplayValid<D(!new)>(exec: (D, nat, Argv) -> D, valid: D -> bool, empty: D,
                                                dump: D -> seq<Argv>, log: seq<Argv>)
    requires Rebuilds(exec, valid, empty, dump)
    ensures Allowed(valid, Replay(exec, At(empty, 0), log).data)
    decreases |log|
  {
    if log != [] {
      ReplayValid(exec, valid, empty, dump, log[..|log| - 1]);
    }
  }

  /** ftruncate */
  function Resized(file: seq<Byte>, size: nat): (f: seq<Byte>)
    ensures |f| == size
  {
    if size <= |file| then file[..size] else file + seq(size - |file|, _ => 0)
  }

  /** The file and, unless the server had to exit, the buffer behind it are the log of what happened. */
  ghost predicate LogHolds<D>(exec: (D, nat, Argv) -> D, p: Position<D>, file: seq<Byte>, buf: seq<Byte>,
                              exited: bool, log: seq<Argv>, base: nat, d: D, selected: int, history: seq<D>)
  {
    && (if exited then file <= PrintAll(log) else file + buf == PrintAll(log))
    && Tracks(exec, p, log, base, d, selected, history)
    && |PrintAll(log[..base])| <= |file|
  }

  ghost predicate DiffHolds<D>(exec: (D, nat, Argv) -> D, p: Position<D>, contents: seq<Byte>, diff: seq<Argv>,
                               d: D, selected: int, history: seq<D>)
  {
    contents == PrintAll(diff) && Tracks(exec, p, diff, 0, d, selected, history)
  }

  lemma {:induction false} LogFed<D>(exec: (D, nat, Argv) -> D, p: Position<D>, file: seq<Byte>, buf: seq<Byte>,
                                     log: seq<Argv>, base: nat, d: D, selected: int, history: seq<D>, db: nat,
                                     argv: Argv)
    requires LogHolds(exec, p, file, buf, false, log, base, d, selected, history) && d in history
    requires Printable(argv) && !IsSelect(argv) && db <= INT_MAX && selected >= -1
    ensures var fed, d' := Fed(selected, db, argv), exec(d, db, argv);
            LogHolds(exec, p, file, buf + PrintAll(fed), false, log + fed, base, d', db, history + [d'])
  {
    hide Replay, PrintAll, Printable, IsSelect;
    var fed := Fed(selected, db, argv);
    TracksFed(exec, p, log, base, d, selected, history, db, argv);
    PrintAllAppend(log, fed);
    assert file + (buf + PrintAll(fed)) == file + buf + PrintAll(fed);
    assert (log + fed)[..base] == log[..base];
    hide Tracks;
  }

  lemma {:induction false} DiffFed<D>(exec: (D, nat, Argv) -> D, p: Position<D>, contents: seq<Byte>, diff: seq<Argv>,
                                      d: D, selected: int, history: seq<D>, db: nat, argv: Argv)
    requires DiffHolds(exec, p, contents, diff, d, selected, history) && d in history
    requires Printable(argv) && !IsSelect(argv) && db <= INT_MAX && selected >= -1
    ensures var fed, d' := Fed(selected, db, argv), exec(d, db, argv);
            DiffHolds(exec, p, contents + PrintAll(fed), diff + fed, d', db, history + [d'])
  {
    TracksFed(exec, p, diff, 0, d, selected, history, db, argv);
    PrintAllAppend(diff, Fed(selected, db, argv));
  }

  /** n bytes of the buffer written. */
  lemma {:induction false} LogWritten<D>(exec: (D, nat, Argv) -> D, p: Position<D>, file: seq<Byte>, buf: seq<Byte>,
                                         log: seq<Argv>, base: nat, d: D, selected: int, history: seq<D>, n: nat)
    requires LogHolds(exec, p, file, buf, false, log, base, d, selected, history) && n <= |buf|
    ensures file + buf[..n] + buf[n..] == file + buf
    ensures LogHolds(exec, p, file + buf[..n], buf[n..], false, log, base, d, selected, history)
    ensures LogHolds(exec, p, file + buf[..n], buf, true, log, base, d, selected, history)
  {
    hide Tracks, PrintAll;
    assert file + buf[..n] + buf[n..] == file + buf;
  }

  lemma {:induction false} LogLoaded<D>(exec: (D, nat, Argv) -> D, p: Position<D>, log: seq<Argv>)
    requires AllPrintable(log)
    ensures var d := Replay(exec, p, log).data;
            LogHolds(exec, p, PrintAll(log), [], false, log, |log|, d, -1, [d])
  {
    hide PrintAll, Tracks, Replay;
    TracksWhole(exec, p, log);
    assert log[..|log|] == log && PrintAll(log) + [] == PrintAll(log);
  }

  lemma {:induction false} LogReselect<D>(exec: (D, nat, Argv) -> D, p: Position<D>, file: seq<Byte>, buf: seq<Byte>,
                                          log: seq<Argv>, base: nat, d: D, selected: int, history: seq<D>)
    requires LogHolds(exec, p, file, buf, false, log, base, d, selected, history)
    ensures LogHolds(exec, p, file, buf, false, log, base, d, -1, history)
  {
  }

  lemma {:induction false} DiffStarts<D(!new)>(exec: (D, nat, Argv) -> D, valid: D -> bool, empty: D,
                                               dump: D -> seq<Argv>, d: D, history: seq<D>)
    requires Rebuilds(exec, valid, empty, dump) && Allowed(valid, d) && d in history
    ensures DiffHolds(exec, Forked(exec, empty, dump, d), [], [], d, -1, history)
  {
    DumpPrintable(exec, valid, empty, dump, d);
    TracksNothing(exec, Forked(exec, empty, dump, d), history);
  }

  lemma {:induction false} DiffReselect<D>(exec: (D, nat, Argv) -> D, p: Position<D>, contents: seq<Byte>,
                                           diff: seq<Argv>, d: D, selected: int, history: seq<D>)
    requires DiffHolds(exec, p, contents, diff, d, selected, history)
    ensures DiffHolds(exec, p, contents, diff, d, -1, history)
  {
  }

  /** The file that a rewrite leaves. */
  lemma {:induction false} LogSwapped<D>(exec: (D, nat, Argv) -> D, p: Position<D>, dump: seq<Argv>,
                                         contents: seq<Byte>, diff: seq<Argv>, d: D, selected: int, history: seq<D>)
    requires AllPrintable(dump) && DiffHolds(exec, Replay(exec, p, dump), contents, diff, d, selected, history)
    ensures LogHolds(exec, p, PrintAll(dump) + contents, [], false, dump + diff, |dump|, d, -1, history)
  {
    hide PrintAll, Replay, AllPrintable;
    TracksReselect(exec, Replay(exec, p, dump), diff, 0, d, selected, history);
    TracksJoin(exec, p, dump, diff, d, -1, history);
    PrintAllAppend(dump, diff);
    assert (dump + diff)[..|dump|] == dump;
    assert PrintAll(dump) + contents + [] == PrintAll(dump) + contents;
    hide Tracks;
  }

  class Server<D(!new)> {
    const exec: (D, nat, Argv) -> D
    ghost const valid: D -> bool
    const empty: D
    const dump: D -> seq<Argv>
    const fsync: Fsync

    var data: D
    var state: AofState
    var fd: Descriptor
    var file: seq<Byte>
    var currentSize: nat
    var buf: seq<Byte>
    var selectedDb: int
    var postponedSince: int
    var lastWriteOk: bool
    var child: bool
    var childData: D
    const rewriteBuf: RewriteBuffer
    var rewriteScheduled: bool
    var exited: bool

    /** All datasets that were live; the commands in file and buf; how many of them came whole, from a
        rewrite; and the commands in the rewrite buffer. */
    ghost var history: seq<D>
    ghost var log: seq<Argv>
    ghost var base: nat
    ghost var diff: seq<Argv>

    /** While the file is on: file and buffer together are a log that leads to the live dataset; if the server
        had to exit, what it leaves in the file is part of that log. */
    ghost predicate LogValid()
      reads this
    {
      && LogHolds(exec, At(empty, 0), file, buf, exited, log, base, data, selectedDb, history)
      && (!exited ==> currentSize == |file|)
    }

    /** While a child rewrites: the buffer holds what happened since the fork. */
    ghost predicate DiffValid()
      reads this, rewriteBuf
    {
      DiffHolds(exec, Forked(exec, empty, dump, childData), rewriteBuf.Contents(), diff, data, selectedDb, history)
    }

    ghost predicate Valid()
      reads this, rewriteBuf
    {
      && Rebuilds(exec, valid, empty, dump) && rewriteBuf.Valid() && selectedDb >= -1 && data in history
      && Allowed(valid, data) && (child ==> Allowed(valid, childData))
      && (state != Off ==> fd == Opened)
      && (state == On ==> LogValid())
      && (child && state != Off ==> DiffValid())
      && (!child ==> rewriteBuf.Contents() == [])
    }

    /** A server with no data; the file is off, or on and empty. */
    constructor (exec: (D, nat, Argv) -> D, ghost valid: D -> bool, empty: D, dump: D -> seq<Argv>, fsync: Fsync,
                 on: bool)
      requires Rebuilds(exec, valid, empty, dump)
      ensures Valid() && state == (if on then On else Off) && !exited && data == empty && fresh(rewriteBuf)
      ensures file == [] && buf == [] && postponedSince == 0 && lastWriteOk && !child && !rewriteScheduled
    {
      this.exec, this.valid, this.empty, this.dump, this.fsync := exec, valid, empty, dump, fsync;
      data, childData, state, fd := empty, empty, if on then On else Off, if on then Opened else Closed;
      file, currentSize, buf, selectedDb, postponedSince, lastWriteOk := [], 0, [], -1, 0, true;
      child, rewriteScheduled, exited := false, false, false;
      rewriteBuf := new RewriteBuffer();
      history, log, base, diff := [empty], [], 0, [];
      new;
      TracksNothing(exec, At(empty, 0), history);
      NothingPrinted();
      hide Tracks, Rebuilds, PrintAll, Flat;
    }

    /** A server that starts from a file which was cut at any byte: loadAppendOnlyFile, with
        aof-load-truncated on. The commands wholly in the file are its data, and the file is on. */
    constructor FromFile(exec: (D, nat, Argv) -> D, ghost valid: D -> bool, empty: D, dump: D -> seq<Argv>,
                         fsync: Fsync, f: seq<Byte>, ghost cmds: seq<Argv>)
      requires Rebuilds(exec, valid, empty, dump) && AllPrintable(cmds) && f <= PrintAll(cmds)
      ensures Valid() && state == On && !exited && fresh(rewriteBuf)
      ensures buf == [] && postponedSince == 0 && lastWriteOk && !child && !rewriteScheduled
      ensures data == Replay(exec, At(empty, 0), cmds[..WholeBefore(cmds, |f|)]).data
    {
      hide PrintAll, Load, Tracks, Rebuilds, Replay, AllPrintable, WholeBefore, Allowed, LogHolds, DiffHolds, Flat,
          Packed;
      var loaded, f' := LoadCut(f, cmds);
      ReplayValid(exec, valid, empty, dump, loaded);
      this.exec, this.valid, this.empty, this.dump, this.fsync := exec, valid, empty, dump, fsync;
      data := Replay(exec, At(empty, 0), loaded).data;
      childData, state, fd := empty, On, Opened;
      file, currentSize, buf, selectedDb, postponedSince, lastWriteOk := f', |f'|, [], -1, 0, true;
      child, rewriteScheduled, exited := false, false, false;
      rewriteBuf := new RewriteBuffer();
      history, log, base, diff := [Replay(exec, At(empty, 0), loaded).data], loaded, |loaded|, [];
      new;
      LogLoaded(exec, At(empty, 0), loaded);
    }

    /** propagate: a command is executed on the live data, and fed to the file unless that is off. */
    method Execute(db: nat, argv: Argv)
      requires Valid() && !exited && Printable(argv) && !IsSelect(argv) && db <= INT_MAX
      modifies this`data, this`buf, this`selectedDb, this`log, this`diff, this`history, rewriteBuf
      ensures Valid() && !exited && data == exec(old(data), db, argv)
      ensures state == old(state) && child == old(child) && file == old(file) && old(buf) <= buf
      ensures state != On ==> buf == old(buf)
      ensures state != Off ==> selectedDb == db
      ensures history == old(history) + [data]
    {
      hide Allowed, Dumped, Forked, LogHolds, DiffHolds, Rebuilds, Replay, PrintAll, Printable, IsSelect, Flat, Packed;
      var d := data;
      ExecValid(exec, valid, empty, dump, data, db, argv);
      data := exec(data, db, argv);
      if state != Off { Feed(db, argv, d); } else { history := history + [data]; }
    }

    /** feedAppendOnlyFile */
    method Feed(db: nat, argv: Argv, ghost d: D)
      requires Printable(argv) && !IsSelect(argv) && db <= INT_MAX && state != Off && fd == Opened
      requires Rebuilds(exec, valid, empty, dump) && rewriteBuf.Valid() && selectedDb >= -1
      requires !exited && d in history && data == exec(d, db, argv) && Allowed(valid, data)
               && (child ==> Allowed(valid, childData))
      requires state == On ==> LogHolds(exec, At(empty, 0), file, buf, false, log, base, d, selectedDb, history)
      requires state == On ==> currentSize == |file|
      requires child ==> DiffHolds(exec, Forked(exec, empty, dump, childData), rewriteBuf.Contents(), diff, d,
               selectedDb, history)
      requires !child ==> rewriteBuf.Contents() == []
      modifies this`buf, this`selectedDb, this`log, this`diff, this`history, rewriteBuf
      ensures Valid() && selectedDb == db && history == old(history) + [data]
      ensures state == On ==> buf == old(buf) + PrintAll(Fed(old(selectedDb), db, argv))
      ensures state != On ==> buf == old(buf)
    {
      hide Allowed, Dumped, Forked, LogHolds, DiffHolds, Rebuilds, Replay, PrintAll, Printable, IsSelect, Flat, Packed;
      ghost var fed := Fed(selectedDb, db, argv);
      var s := [];
      if db != selectedDb {
        s := SelectPrinted(db);
      }
      s := CatGenericCommand(s, argv);
      FedPrinted(selectedDb, db, argv);
      hide Fed;
      if state == On {
        LogFed(exec, At(empty, 0), file, buf, log, base, d, selectedDb, history, db, argv);
        buf, log := buf + s, log + fed;
      }
      if child {
        DiffFed(exec, Forked(exec, empty, dump, childData), rewriteBuf.Contents(), diff, d, selectedDb, history, db,
                argv);
        rewriteBuf.Append(s);
        diff := diff + fed;
      }
      history := history + [data];
      selectedDb := db;
    }

    /** Whether flushAppendOnlyFile puts the write off, since fsync is at work in the background. */
    predicate Postpones(force: bool, now: int, syncing: bool)
      reads this`postponedSince
    {
      fsync == Everysec && !force && syncing && (postponedSince == 0 || now - postponedSince < 2)
    }

    /** flushAppendOnlyFile. The write may be short, and then ftruncate may fail to take it back. */
    method Flush(force: bool, now: int, syncing: bool, w: Written, truncates: bool)
      requires Valid() && !exited && (w.Wrote? ==> w.n <= |buf|)
      modifies this`file, this`currentSize, this`buf, this`postponedSince, this`lastWriteOk, this`exited
      ensures Valid()
      ensures old(buf) == [] || old(Postpones(force, now, syncing)) ==>
                !exited && file == old(file) && buf == old(buf) && lastWriteOk == old(lastWriteOk)
      ensures old(buf) != [] && !old(Postpones(force, now, syncing)) ==>
                if fd == Opened && w == Wrote(|old(buf)|)
                then !exited && lastWriteOk && file == old(file) + old(buf) && buf == []
                else exited == (fsync == Always) && (!exited ==> !lastWriteOk)
      ensures state == On && !exited ==> file + buf == old(file) + old(buf) && |file| >= |old(file)|
      ensures state == On ==> old(file) <= file
      ensures postponedSince == if old(buf) == [] then old(postponedSince)
                                else if !old(Postpones(force, now, syncing)) then 0
                                else if old(postponedSince) == 0 then now else old(postponedSince)
    {
      hide Allowed, Dumped, Forked, LogHolds, DiffHolds, Rebuilds, Replay, PrintAll, Flat, Packed;
      if |buf| == 0 { return; }
      if fsync == Everysec && !force && syncing {
        if postponedSince == 0 {
          postponedSince := now;
          return;
        } else if now - postponedSince < 2 {
          return;
        }
      }
      var nwritten: int := if fd == Opened && w.Wrote? then w.n else -1;
      postponedSince := 0;
      if nwritten != |buf| { WriteFailed(nwritten, truncates); } else { WriteDone(); }
    }

    method WriteDone()
      requires Valid() && !exited && fd == Opened
      modifies this`file, this`currentSize, this`buf, this`lastWriteOk
      ensures Valid() && lastWriteOk && file == old(file) + old(buf) && buf == []
    {
      hide Allowed, Dumped, Forked, LogHolds, DiffHolds, Rebuilds, Replay, PrintAll, Flat, Packed;
      assert buf[..|buf|] == buf && buf[|buf|..] == [];
      if state == On { LogWritten(exec, At(empty, 0), file, buf, log, base, data, selectedDb, history, |buf|); }
      file := file + buf;
      lastWriteOk := true;
      currentSize := currentSize + |buf|;
      buf := [];
    }

    /** The write error: with fsync always the server exits, else what was not written stays in the buffer. */
    method WriteFailed(nwritten: int, truncates: bool)
      requires Valid() && !exited && -1 <= nwritten < |buf| && (nwritten != -1 ==> fd == Opened)
      modifies this`file, this`currentSize, this`buf, this`lastWriteOk, this`exited
      ensures Valid() && exited == (fsync == Always) && (!exited ==> !lastWriteOk)
      ensures state == On && !exited ==> file + buf == old(file) + old(buf)
      ensures state == On ==> old(file) <= file
      ensures nwritten == -1 ==> file == old(file)
      ensures nwritten != -1 && !truncates ==> file == old(file) + old(buf)[..nwritten]
      ensures nwritten != -1 && truncates && state == On ==> file == old(file)
      ensures !exited ==> buf == if nwritten == -1 || truncates then old(buf) else old(buf)[nwritten..]
    {
      hide Allowed, Dumped, Forked, LogHolds, DiffHolds, Rebuilds, Replay, PrintAll, Flat, Packed;
      var n := nwritten;
      if state == On {
        LogWritten(exec, At(empty, 0), file, buf, log, base, data, selectedDb, history, 0);
        LogWritten(exec, At(empty, 0), file, buf, log, base, data, selectedDb, history, if n > 0 then n else 0);
        assert file + buf[..0] == file;
      }
      if nwritten != -1 {
        file := file + buf[..n];
        if truncates {
          assert state == On ==> Resized(file, currentSize) == old(file);
          file, n := Resized(file, currentSize), -1;
        }
      }
      if fsync == Always {
        exited := true;
      } else {
        lastWriteOk := false;
        if n > 0 {
          currentSize := currentSize + n;
          buf := buf[n..];
        }
      }
    }

    /** rewriteAppendOnlyFileBackground: the child is left with the dataset of this moment. */
    method StartRewrite(forks: bool) returns (ok: bool)
      requires Valid() && !exited
      modifies this`child, this`childData, this`selectedDb, this`rewriteScheduled, this`diff
      ensures Valid() && (ok <==> !old(child) && forks)
      ensures ok ==> child && childData == data && selectedDb == -1 && DiffValid() && !rewriteScheduled && diff == []
      ensures !ok ==> child == old(child) && childData == old(childData) && selectedDb == old(selectedDb)
                      && rewriteScheduled == old(rewriteScheduled)
    {
      hide Allowed, Dumped, Forked, LogHolds, DiffHolds, Rebuilds, Replay, PrintAll, Flat, Packed;
      if child || !forks { return false; }
      rewriteScheduled, child, childData := false, true, data;
      DiffStarts(exec, valid, empty, dump, data, history);
      if state == On { LogReselect(exec, At(empty, 0), file, buf, log, base, data, selectedDb, history); }
      selectedDb := -1;
      diff := [];
      return true;
    }

    /** backgroundRewriteDoneHandler. If the child succeeded, its file is opened, gets the differences and takes
        the place of the old one; any of that may fail. */
    method RewriteDone(success: bool, opens: bool, failing: nat, short: nat, renames: bool) returns (swapped: bool)
      requires Valid() && !exited && child
      modifies this`file, this`fd, this`selectedDb, this`currentSize, this`buf, this`state, this`log, this`base
      modifies this`child, this`rewriteScheduled, rewriteBuf
      ensures Valid() && !exited && !child && data == old(data) && history == old(history)
      ensures swapped ==> success && opens && renames
      ensures success && opens && renames && failing >= old(|rewriteBuf.blocks|) ==> swapped
      ensures if swapped then file == PrintAll(Dumped(dump, childData)) + old(rewriteBuf.Contents())
              else file == old(file)
      ensures swapped && old(fd) != Closed ==> buf == []
      ensures !swapped ==> buf == old(buf)
      ensures state == if swapped && old(state) == WaitRewrite then On else old(state)
      ensures rewriteScheduled <==> old(rewriteScheduled) || (!swapped && old(state) == WaitRewrite)
      ensures (fd, selectedDb, currentSize) == if swapped && old(fd) != Closed then (Opened, -1, |file|)
                                               else old((fd, selectedDb, currentSize))
    {
      hide LogHolds, DiffHolds, Replay, PrintAll, Flat, Packed;
      swapped := false;
      if success && opens {
        var out, count := rewriteBuf.Write(PrintAll(Dumped(dump, childData)), failing, short);
        if count != -1 && renames {
          swapped := true;
          Swap(out);
        }
      }
      rewriteBuf.Reset();
      child := false;
      if state == WaitRewrite { rewriteScheduled := true; }
    }

    /** The rename: out is the file now, and if the old one had a descriptor, the new one has it. */
    method Swap(out: seq<Byte>)
      requires Valid() && !exited && child && out == PrintAll(Dumped(dump, childData)) + rewriteBuf.Contents()
      modifies this`file, this`fd, this`selectedDb, this`currentSize, this`buf, this`state, this`log, this`base
      ensures Valid() && file == out && state == if old(state) == WaitRewrite then On else old(state)
      ensures if old(fd) != Closed then buf == [] && (fd, selectedDb, currentSize) == (Opened, -1, |file|)
              else buf == old(buf) && (fd, selectedDb, currentSize) == old((fd, selectedDb, currentSize))
    {
      if state == Off { SwapOff(out); } else { SwapOn(out); }
    }

    method SwapOff(out: seq<Byte>)
      requires Valid() && !exited && child && state == Off
      modifies this`file, this`fd, this`selectedDb, this`currentSize, this`buf
      ensures Valid() && file == out
      ensures if old(fd) != Closed then buf == [] && (fd, selectedDb, currentSize) == (Opened, -1, |file|)
              else buf == old(buf) && (fd, selectedDb, currentSize) == old((fd, selectedDb, currentSize))
    {
      hide Allowed, Dumped, Forked, LogHolds, DiffHolds, Rebuilds, Replay, PrintAll, Flat, Packed;
      file := out;
      if fd != Closed { EnableFd(); }
    }

    method SwapOn(out: seq<Byte>)
      requires Valid() && !exited && child && state != Off
      requires out == PrintAll(Dumped(dump, childData)) + rewriteBuf.Contents()
      modifies this`file, this`fd, this`selectedDb, this`currentSize, this`buf, this`state, this`log, this`base
      ensures Valid() && file == out && state == On && buf == []
              && (fd, selectedDb, currentSize) == (Opened, -1, |file|)
    {
      hide Allowed, Dumped, Forked, LogHolds, DiffHolds, Rebuilds, Replay, PrintAll, Flat, Packed;
      Swappable();
      log, base := Dumped(dump, childData) + diff, |Dumped(dump, childData)|;
      file := out;
      EnableFd();
      state := On;
    }

    /** The descriptor of the new file takes the place of the old one. */
    method EnableFd()
      modifies this`fd, this`selectedDb, this`currentSize, this`buf
      ensures fd == Opened && selectedDb == -1 && currentSize == |file| && buf == []
    {
      fd := Opened;
      selectedDb := -1; // make sure SELECT is issued again
      currentSize := |file|;
      buf := [];
    }

    lemma {:induction false} Swappable()
      requires Valid() && child
      ensures var start, contents := Dumped(dump, childData), rewriteBuf.Contents();
              state != Off ==>
              && LogHolds(exec, At(empty, 0), PrintAll(start) + contents, [], false, start + diff, |start|, data, -1,
                  history)
              && DiffHolds(exec, Forked(exec, empty, dump, childData), contents, diff, data, -1, history)
    {
      if state == Off { return; }
      var start, contents := Dumped(dump, childData), rewriteBuf.Contents();
      DumpPrintable(exec, valid, empty, dump, childData);
      LogSwapped(exec, At(empty, 0), start, contents, diff, data, selectedDb, history);
      DiffReselect(exec, Forked(exec, empty, dump, childData), contents, diff, data, selectedDb, history);
      hide Allowed, Dumped, Forked, LogHolds, DiffHolds, Rebuilds, Replay, PrintAll, Flat, Packed;
    }

    /** stopAppendOnly: the buffer is flushed without delay, and a child that rewrites is killed. */
    method Stop(now: int, syncing: bool, w: Written, truncates: bool)
      requires Valid() && !exited && state != Off && (w.Wrote? ==> w.n <= |buf|)
      modifies this, rewriteBuf
      ensures Valid() && data == old(data) && history == old(history)
      ensures !exited ==> state == Off && !child && fd == Closed && selectedDb == -1
      ensures w == Wrote(|old(buf)|) ==> !exited && file == old(file) + old(buf) && buf == []
      ensures exited ==> fsync == Always
      ensures old(state) == On && !exited ==> file + buf == old(file) + old(buf)
    {
      hide Allowed, Dumped, Forked, LogHolds, DiffHolds, Rebuilds, Replay, PrintAll, Flat, Packed;
      Flush(true, now, syncing, w, truncates);
      if exited { return; }
      fd, selectedDb, state := Closed, -1, Off;
      if child {
        rewriteBuf.Reset();
        child := false;
      }
    }

    /** startAppendOnly: a rewrite is begun, and the file is on when that is done. */
    method StartAppendOnly(opens: bool, forks: bool) returns (ok: bool)
      requires Valid() && !exited && state == Off
      modifies this
      ensures Valid() && data == old(data) && history == old(history) && !exited
      ensures ok <==> opens && forks && !old(child)
      ensures state == if ok then WaitRewrite else Off
      ensures fd == if !opens then Closed else if ok then Opened else Stale
      ensures file == old(file) && buf == old(buf) && selectedDb == if ok then -1 else old(selectedDb)
    {
      fd := if opens then Opened else Closed;
      if !opens { return false; }
      ok := StartRewrite(forks);
      if !ok {
        fd := Stale;
        return;
      }
      state := WaitRewrite;
    }

    /** Loading the file and what is in the buffer gives the live dataset. */
    lemma {:induction false} NothingLost()
      requires Valid() && !exited && state == On
      ensures Load(file + buf, 0, []) == Loaded(log, |file + buf|, Clean)
      ensures Replay(exec, At(empty, 0), log).data == data
    {
      RoundTrip(log);
    }

    /** If the server is gone, and the file may be cut further down to what the last rewrite wrote, then what is
        loaded is a front of the log: a dataset that was once live. The commands wholly in the file are all there. */
    lemma {:induction false} Recovers(k: nat)
      requires Valid() && state == On && |PrintAll(log[..base])| <= k <= |file|
      ensures var l := Load(file[..k], 0, []);
              && !l.ending.Fatal? && l.cmds == log[..WholeBefore(log, k)]
              && Replay(exec, At(empty, 0), l.cmds).data in history
    {
      assert file <= PrintAll(log);
      assert file[..k] == PrintAll(log)[..k];
      CutAnywhere(log, k);
      AtLeast(log, base, k);
      hide PrintAll, Load, Replay, WholeBefore;
    }
  }

  // ----- whole runs -----

  /** What can happen, with what the operating system makes of it. */
  datatype Event =
    | Command(db: nat, argv: Argv)
    | Flushing(force: bool, now: int, syncing: bool, w: Written, truncates: bool)
    | BgRewrite(forks: bool)
    | ChildExit(success: bool, opens: bool, failing: nat, short: nat, renames: bool)
    | TurnOff(now: int, syncing: bool, w: Written, truncates: bool)
    | TurnOn(opens: bool, forks: bool)

  /** Events that cannot happen: commands that are not logged as they are, a child's exit without a child, writes
      of more than there is, and switching the file to what it is already. */
  predicate Possible(state: AofState, child: bool, buf: seq<Byte>, e: Event) {
    match e
    case Command(db, argv) => db <= INT_MAX && Printable(argv) && !IsSelect(argv)
    case Flushing(_, _, _, w, _) => w.Wrote? ==> w.n <= |buf|
    case BgRewrite(_) => true
    case ChildExit(_, _, _, _, _) => child
    case TurnOff(_, _, w, _) => state != Off && (w.Wrote? ==> w.n <= |buf|)
    case TurnOn(_, _) => state == Off
  }

  method Happens<D(!new)>(s: Server<D>, e: Event)
    requires s.Valid() && !s.exited && Possible(s.state, s.child, s.buf, e)
    modifies s, s.rewriteBuf
    ensures s.Valid() && s.data == (if e.Command? then s.exec(old(s.data), e.db, e.argv) else old(s.data))
    ensures s.exited ==> s.fsync == Always && !e.Command?
  {
    match e {
      case Command(db, argv) => s.Execute(db, argv);
      case Flushing(force, now, syncing, w, truncates) => s.Flush(force, now, syncing, w, truncates);
      case BgRewrite(forks) => var _ := s.StartRewrite(forks);
      case ChildExit(success, opens, failing, short, renames) =>
        var _ := s.RewriteDone(success, opens, failing, short, renames);
      case TurnOff(now, syncing, w, truncates) => s.Stop(now, syncing, w, truncates);
      case TurnOn(opens, forks) => var _ := s.StartAppendOnly(opens, forks);
    }
  }

  /** The dataset after the commands among the events. */
  function DataAfter<D>(exec: (D, nat, Argv) -> D, d: D, events: seq<Event>): D {
    if events == [] then d else
    var e, before := events[|events| - 1], DataAfter(exec, d, events[..|events| - 1]);
    if e.Command? && e.db <= INT_MAX && Printable(e.argv) && !IsSelect(e.argv) then exec(before, e.db, e.argv)
        else before
  }

  /** After any events in any order: if the file is on, loading it and what is still in the buffer gives back the
      live dataset, and loading the file alone one that was live before; also if the server had to exit. */
  method Run<D(!new)>(s: Server<D>, events: seq<Event>) returns (n: nat)
    requires s.Valid()
    modifies s, s.rewriteBuf
    ensures s.Valid() && n <= |events| && (n < |events| ==> s.exited)
    ensures s.data == DataAfter(s.exec, old(s.data), events[..n])
    ensures s.state == On && !s.exited ==>
              Replay(s.exec, At(s.empty, 0), Load(s.file + s.buf, 0, []).cmds).data == s.data
    ensures s.state == On ==> Replay(s.exec, At(s.empty, 0), Load(s.file, 0, []).cmds).data in s.history
  {
    n := 0;
    assert events[..0] == [];
    while n < |events| && !s.exited
      invariant s.Valid() && n <= |events|
      invariant s.data == DataAfter(s.exec, old(s.data), events[..n])
    {
      assert events[..n + 1][..n] == events[..n];
      if Possible(s.state, s.child, s.buf, events[n]) { Happens(s, events[n]); }
      n := n + 1;
    }
    if s.state == On {
      if !s.exited { s.NothingLost(); }
      BaseWithin(s);
      s.Recovers(|s.file|);
      assert s.file[..|s.file|] == s.file;
    }
  }

  // ----- how long a write can be put off -----

  /** The events of a time in which the file stays on and no write fails. */
  predicate Undisturbed(e: Event, t: int, t': int) {
    !e.TurnOff? && !e.TurnOn? && (e.Flushing? ==> t <= e.now <= t')
  }

  /** A flush in which the write is whole; when it is put off, the time at which that began is on record. */
  method FlushWhole<D(!new)>(s: Server<D>, force: bool, now: int, syncing: bool, truncates: bool, ghost t: int)
    requires s.Valid() && !s.exited && s.state == On && 0 < t <= now
    modifies s`file, s`currentSize, s`buf, s`postponedSince, s`lastWriteOk, s`exited
    ensures s.Valid() && !s.exited && s.file + s.buf == old(s.file) + old(s.buf) && old(s.file) <= s.file
    ensures s.buf == [] || (s.buf == old(s.buf) && s.file == old(s.file)
              && s.postponedSince == (if old(s.postponedSince) == 0 then now else old(s.postponedSince))
              && (old(s.postponedSince) != 0 ==> now - old(s.postponedSince) < 2))
    ensures s.buf == [] ==> s.postponedSince == 0 || s.postponedSince == old(s.postponedSince)
  {
    hide Server.Valid;
    OnIsOpen(s);
    s.Flush(force, now, syncing, Wrote(|s.buf|), truncates);
  }

  lemma {:induction false} OnIsOpen<D(!new)>(s: Server<D>)
    requires s.Valid() && s.state == On
    ensures s.fd == Opened
  {
  }

  /** What was due at t is in the file, or at its end and the buffer, put off since t at the latest. */
  ghost predicate InTime(due: seq<Byte>, swapped: bool, file: seq<Byte>, buf: seq<Byte>, since: int, t: int) {
    swapped || due <= file || (due <= file + buf && buf != [] && 0 < since <= t)
  }

  predicate Replaces(e: Event) { e.ChildExit? && e.success && e.opens && e.renames }

  /** One of these events; says whether the file was replaced. */
  method Passes<D(!new)>(s: Server<D>, e: Event, t: int, t': int, ghost due: seq<Byte>, swapped0: bool)
    returns (swapped: bool)
    requires s.Valid() && !s.exited && s.state == On && 0 < t && Undisturbed(e, t, t')
    requires InTime(due, swapped0, s.file, s.buf, s.postponedSince, t)
    modifies s, s.rewriteBuf
    ensures s.Valid() && !s.exited && s.state == On && (swapped0 ==> swapped)
    ensures swapped && !swapped0 ==> Replaces(e)
    ensures s.data == DataAfter(s.exec, old(s.data), [e])
    ensures InTime(due, swapped, s.file, s.buf, s.postponedSince, t)
  {
    hide Server.Valid, Printable, IsSelect, PrintAll, Fed;
    swapped := swapped0;
    match e {
      case Flushing(force, now, syncing, _, truncates) => FlushWhole(s, force, now, syncing, truncates, t);
      case Command(db, argv) =>
        if db <= INT_MAX && Printable(argv) && !IsSelect(argv) {
          s.Execute(db, argv);
          assert old(s.file + s.buf) <= s.file + s.buf;
        }
      case BgRewrite(forks) => var _ := s.StartRewrite(forks);
      case ChildExit(success, opens, failing, short, renames) =>
        if s.child {
          var swaps := s.RewriteDone(success, opens, failing, short, renames);
          swapped := swapped || swaps;
        }
    }
  }

  lemma {:induction false} OneMoreEvent<D>(exec: (D, nat, Argv) -> D, d: D, events: seq<Event>, e: Event)
    ensures DataAfter(exec, d, events + [e]) == DataAfter(exec, DataAfter(exec, d, events), [e])
  {
    assert (events + [e])[..|events|] == events;
    assert [e][..0] == [];
  }

  /** A flush at t, any events, and a flush at least two seconds later, whether fsync is at work or not: all that
      was to be written at t is in the file, unless that was replaced by a rewritten one. */
  method FlushedInTime<D(!new)>(s: Server<D>, t: int, syncing: bool, truncates: bool, events: seq<Event>,
                                t': int, syncing': bool, truncates': bool) returns (swapped: bool)
    requires s.Valid() && !s.exited && s.state == On && 0 < t && t + 2 <= t' && 0 <= s.postponedSince <= t
    requires forall e <- events :: Undisturbed(e, t, t')
    modifies s, s.rewriteBuf
    ensures s.Valid() && !s.exited && s.state == On
    ensures !swapped ==> old(s.file + s.buf) <= s.file
    ensures swapped ==> exists e <- events :: Replaces(e)
    ensures s.data == DataAfter(s.exec, old(s.data), events)
    ensures events == [] ==> s.buf == [] && s.file == old(s.file + s.buf)
  {
    hide Server.Valid, Undisturbed;
    ghost var due := s.file + s.buf;
    FlushWhole(s, false, t, syncing, truncates, t);
    swapped := false;
    if events == [] {
      FlushWhole(s, false, t', syncing', truncates', t);
      return;
    }
    var i := 0;
    assert events[..0] == [];
    while i < |events|
      invariant 0 <= i <= |events| && s.Valid() && !s.exited && s.state == On
      invariant swapped ==> exists e <- events :: Replaces(e)
      invariant s.data == DataAfter(s.exec, old(s.data), events[..i])
      invariant InTime(due, swapped, s.file, s.buf, s.postponedSince, t)
    {
      swapped := Passes(s, events[i], t, t', due, swapped);
      assert events[..i + 1] == events[..i] + [events[i]];
      OneMoreEvent(s.exec, old(s.data), events[..i], events[i]);
      i := i + 1;
    }
    assert events[..i] == events;
    FlushWhole(s, false, t', syncing', truncates', t);
  }

  lemma {:induction false} BaseWithin<D(!new)>(s: Server<D>)
    requires s.Valid() && s.state == On
    ensures s.base <= |s.log| && |PrintAll(s.log[..s.base])| <= |s.file|
  {
  }

  lemma {:induction false} AtLeast(log: seq<Argv>, base: nat, k: nat)
    requires base <= |log| && |PrintAll(log[..base])| <= k
    ensures WholeBefore(log, k) >= base
    decreases |log|
  {
    hide PrintCmd;
    if base > 0 {
      assert log[..base][1..] == log[1..][..base - 1];
      AtLeast(log[1..], base - 1, k - |PrintCmd(log[0])|);
    }
  }

  lemma {:induction false} FedPrinted(selected: int, db: nat, argv: Argv)
    ensures PrintAll(Fed(selected, db, argv)) ==
            (if db != selected then PrintCmd(SelectCmd(db)) else []) + PrintCmd(argv)
  {
    PrintOne(argv);
    if db != selected {
      PrintOne(SelectCmd(db));
      PrintAllAppend([SelectCmd(db)], [argv]);
      assert [SelectCmd(db)] + [argv] == Fed(selected, db, argv);
    }
    hide PrintCmd, PrintAll;
    assert [] + PrintCmd(argv) == PrintCmd(argv);
  }

  /** The SELECT command that feedAppendOnlyFile formats itself. */
  method SelectPrinted(db: nat) returns (s: seq<Byte>)
    ensures s == PrintCmd(SelectCmd(db))
  {
    var seldb := Dec(db);
    s := [42, 50, 13, 10, 36, 54, 13, 10] + SELECT + [13, 10, 36] + Dec(|seldb|) + [13, 10] + seldb + [13, 10];
    assert Header(STAR, 2) == [42, 50, 13, 10] && Header(DOLLAR, |SELECT|) == [36, 54, 13, 10];
    var argv := SelectCmd(db);
    hide Dec;
    var rest: Argv := argv[1..];
    assert rest == [seldb] && PrintArgs(rest[1..]) == [];
    assert PrintArgs(argv) == PrintArg(SELECT) + (PrintArg(seldb) + []);
  }

  lemma {:induction false} NothingPrinted()
    ensures PrintAll([]) == []
  {
  }

  /** loadAppendOnlyFile on the front of a log. */
  method LoadCut(f: seq<Byte>, ghost cmds: seq<Argv>) returns (kept: seq<Argv>, f': seq<Byte>)
    requires AllPrintable(cmds) && f <= PrintAll(cmds)
    ensures kept == cmds[..WholeBefore(cmds, |f|)] && AllPrintable(kept) && f' == PrintAll(kept)
  {
    CutAnywhere(cmds, |f|);
    assert f == PrintAll(cmds)[..|f|];
    WholeBeforeIs(cmds, |f|);
    hide PrintAll, WholeBefore, Load;
    var ok;
    kept, ok, f' := AofLoad.LoadAppendOnlyFile(f, true, true);
    KeptPrefix(cmds, f, kept);
  }

  lemma {:induction false} KeptPrefix(cmds: seq<Argv>, f: seq<Byte>, kept: seq<Argv>)
    requires AllPrintable(cmds) && f <= PrintAll(cmds) && kept <= cmds && |PrintAll(kept)| <= |f|
    ensures f[..|PrintAll(kept)|] == PrintAll(kept)
  {
    assert cmds == kept + cmds[|kept|..];
    PrintAllAppend(kept, cmds[|kept|..]);
    hide PrintAll;
  }
}
