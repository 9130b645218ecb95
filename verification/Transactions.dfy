/** MULTI, EXEC and WATCH over the clients of a server. */
module Transactions {
  import opened Bytes
  import opened WatchLog
  import Slices

  type Argv = seq<seq<Byte>>

  /** What a queued command can be: the commands that this module is about, or any other. */
  datatype Command = Select(db: nat) | Unwatch | FlushDb | FlushAll | Op(argv: Argv)

  type Data = map<WatchKey, seq<Byte>>

  /** What the other commands do to the data, and for which keys they call signalModifiedKey. */
  datatype Semantics = Semantics(apply: (Data, nat, Argv) -> Data, touches: (Data, nat, Argv) -> seq<WatchKey>)

  function Applied(sem: Semantics, data: Data, db: nat, argv: Argv): Data { sem.apply(data, db, argv) }

  function Touches(sem: Semantics, data: Data, db: nat, argv: Argv): seq<WatchKey> { sem.touches(data, db, argv) }

  /** The keys that are present in database db, or in all of them. */
  function Present(data: Data, all: bool, db: nat): set<WatchKey> {
    set wk | wk in data && (all || wk.db == db)
  }

  /** The data, and the database selected, after one command. */
  function RunOne(sem: Semantics, s: (Data, nat), cmd: Command): (Data, nat) {
    match cmd
    case Select(db) => (s.0, db)
    case Unwatch => s
    case FlushDb => (s.0 - Present(s.0, false, s.1), s.1)
    case FlushAll => (map[], s.1)
    case Op(argv) => (Applied(sem, s.0, s.1, argv), s.1)
  }

  /** All commands, in order. */
  function RunAll(sem: Semantics, s: (Data, nat), cmds: seq<Command>): (Data, nat) {
    if cmds == [] then s else RunOne(sem, RunAll(sem, s, cmds[..|cmds| - 1]), cmds[|cmds| - 1])
  }

  function TouchEvents<C>(touched: seq<WatchKey>): seq<Event<C>> {
    seq(|touched|, i requires 0 <= i < |touched| => Touched(touched[i]))
  }

  /** The events of one command that client c executes. */
  ghost function EventsOf<C>(sem: Semantics, s: (Data, nat), c: C, cmd: Command): seq<Event<C>> {
    match cmd
    case Select(_) => []
    case Unwatch => [Cleared(c)]
    case FlushDb => [Flushed(Present(s.0, false, s.1))]
    case FlushAll => [Flushed(Present(s.0, true, s.1))]
    case Op(argv) => TouchEvents(Touches(sem, s.0, s.1, argv))
  }

  ghost function EventsAll<C>(sem: Semantics, s: (Data, nat), c: C, cmds: seq<Command>): seq<Event<C>> {
    if cmds == [] then [] else
    var n := |cmds| - 1;
    EventsAll(sem, s, c, cmds[..n]) + EventsOf(sem, RunAll(sem, s, cmds[..n]), c, cmds[n])
  }

  /** A flush touches exactly the keys that are gone after it. */
  lemma {:induction false} FlushedAreGone<C>(sem: Semantics, s: (Data, nat), c: C, cmd: Command)
    requires cmd.FlushDb? || cmd.FlushAll?
    ensures EventsOf(sem, s, c, cmd) == [Flushed(s.0.Keys - RunOne(sem, s, cmd).0.Keys)]
    ensures forall wk <- s.0 :: wk in RunOne(sem, s, cmd).0 <==> cmd.FlushDb? && wk.db != s.1
  {
    assert Present(s.0, cmd.FlushAll?, s.1) == s.0.Keys - RunOne(sem, s, cmd).0.Keys;
  }

  lemma {:induction false} OneMore<C>(sem: Semantics, s: (Data, nat), c: C, cmds: seq<Command>, j: nat)
    requires j < |cmds|
    ensures RunAll(sem, s, cmds[..j + 1]) == RunOne(sem, RunAll(sem, s, cmds[..j]), cmds[j])
    ensures EventsAll(sem, s, c, cmds[..j + 1]) ==
            EventsAll(sem, s, c, cmds[..j]) + EventsOf(sem, RunAll(sem, s, cmds[..j]), c, cmds[j])
  {
    hide RunOne, EventsOf;
    assert cmds[..j + 1][..j] == cmds[..j];
  }

  predicate NoDup<T(==)>(s: seq<T>) {
    forall i, j :: 0 <= i < j < |s| ==> s[i] != s[j]
  }

  ghost function ToSet<T>(s: seq<T>): set<T> { set x | x in s }

  /** listDelNode on the node that listSearchKey finds. */
  function Without<T(==)>(s: seq<T>, x: T): (r: seq<T>)
    ensures forall y :: y in r ==> y in s
    ensures forall y :: y in s && y != x ==> y in r
    decreases |s|
  {
    if s == [] then [] else if s[0] == x then s[1..] else [s[0]] + Without(s[1..], x)
  }

  lemma {:induction false} WithoutOne<T>(s: seq<T>, x: T)
    requires NoDup(s)
    ensures NoDup(Without(s, x)) && x !in Without(s, x)
    decreases |s|
  {
    if s != [] && s[0] != x {
      WithoutOne(s[1..], x);
      var r := Without(s[1..], x);
      assert s[0] !in r;
    }
  }

  ghost predicate WatchesAny(gone: set<WatchKey>, watched: seq<WatchKey>) {
    gone * ToSet(watched) != {}
  }

  lemma {:induction false} Added<T>(s: seq<T>, x: T)
    requires NoDup(s)
    ensures x in s ==> ToSet(s) + {x} == ToSet(s)
    ensures x !in s ==> NoDup(s + [x]) && ToSet(s + [x]) == ToSet(s) + {x}
  {
  }

  lemma {:induction false} AddedDistinct<T>(s: seq<T>, x: T)
    requires s == [] || NoDup(s)
    ensures x !in s ==> NoDup(s + [x])
  {
  }

  class Client {
    var db: nat
    var watched: seq<WatchKey>
    var multi: bool
    var dirtyCas: bool
    var dirtyExec: bool
    var queue: seq<Command>

    constructor ()
      ensures db == 0 && watched == [] && !multi && !dirtyCas && !dirtyExec && queue == []
    {
      db, watched, multi, dirtyCas, dirtyExec, queue := 0, [], false, false, false, [];
    }
  }

  datatype Reply = Ok | Queued | Error | ExecAbort | Nil | Ran(n: nat)

  class Server {
    const sem: Semantics
    var data: Data
    var clients: seq<Client>
    var watchers: map<WatchKey, seq<Client>>
    ghost var log: seq<Event<Client>>

    /** The lists of watched keys and the lists of watching clients are the inverse of each other, without
        duplicates and without empty lists. */
    ghost predicate Mirror()
      reads this`clients, this`watchers, clients`watched
    {
      && NoDup(clients)
      && (forall c :: c in clients ==> NoDup(c.watched))
      && (forall c, wk :: c in clients && wk in c.watched ==> wk in watchers && c in watchers[wk])
      && (forall wk <- watchers :: watchers[wk] != [] && NoDup(watchers[wk]))
      && (forall wk, c :: wk in watchers && c in watchers[wk] ==> c in clients && wk in c.watched)
    }

    /** Clients watch what the log says they watch. */
    ghost predicate Logged()
      reads this`clients, this`log, clients`watched
    {
      forall c :: c in clients ==> ToSet(c.watched) == Watching(log, c)
    }

    /** DIRTY_CAS is set as the log says; outside MULTI nothing is queued. */
    ghost predicate Flags()
      reads this`clients, this`log, clients
    {
      forall c :: c in clients ==>
        && c.dirtyCas == Dirty(log, c)
        && (c.multi || (c.queue == [] && !c.dirtyExec))
    }

    ghost predicate Valid()
      reads this, clients
    {
      Mirror() && Logged() && Flags()
    }

    constructor (sem: Semantics)
      ensures Valid() && clients == [] && this.sem == sem
    {
      this.sem, data, clients, watchers, log := sem, map[], [], map[], [];
    }

    // ----- watching -----

    /** The event log grows by the client's own WATCH. */
    lemma {:induction false} LogWatched(c: Client, wk: WatchKey, d: Client)
      ensures Dirty(log + [Watched(c, wk)], d) == Dirty(log, d)
      ensures Watching(log + [Watched(c, wk)], d) == if c == d then Watching(log, d) + {wk} else Watching(log, d)
    {
      hide Dirty, Watching;
      Snoc(log, Watched(c, wk), d);
    }

    /** watchForKey */
    method WatchForKey(c: Client, key: Key)
      requires Valid() && c in clients
      modifies this`watchers, this`log, c`watched
      ensures Valid() && log == old(log) + [Watched(c, WatchKey(c.db, key))]
    {
      hide Dirty, Watching, NoDup, ToSet;
      var wk := WatchKey(c.db, key);
      forall d | d in clients
        ensures Dirty(log + [Watched(c, wk)], d) == Dirty(log, d)
        ensures Watching(log + [Watched(c, wk)], d) == if c == d then Watching(log, d) + {wk} else Watching(log, d)
      {
        LogWatched(c, wk, d);
      }
      log := log + [Watched(c, wk)];
      var already := IsWatched(c, wk);
      Added(c.watched, wk);
      if already { return; }
      var list := if wk in watchers then watchers[wk] else [];
      AddedDistinct(list, c);
      watchers := watchers[wk := list + [c]];
      c.watched := c.watched + [wk];
    }

    method IsWatched(c: Client, wk: WatchKey) returns (found: bool)
      ensures found <==> wk in c.watched
    {
      var i := 0;
      while i < |c.watched|
        invariant 0 <= i <= |c.watched| && wk !in c.watched[..i]
      {
        if c.watched[i] == wk { return true; }
        i := i + 1;
      }
      return false;
    }

    /** unwatchAllKeys; clearing the flag is up to the caller. */
    method UnwatchAllKeys(c: Client)
      requires Mirror() && Logged() && c in clients
      modifies this`watchers, this`log, c`watched
      ensures Mirror() && Logged() && c.watched == [] && log == old(log) + [Cleared(c)]
    {
      hide Dirty, Watching;
      ghost var e := Cleared(c);
      forall d | d in clients ensures Watching(log + [e], d) == WatchingAfter(Watching(log, d), e, d) {
        Snoc(log, e, d);
      }
      log := log + [e];
      while c.watched != []
        invariant Mirror() && log == old(log) + [e]
        decreases |c.watched|
      {
        UnwatchFirst(c);
      }
    }

    method UnwatchFirst(c: Client)
      requires Mirror() && c in clients && c.watched != []
      modifies this`watchers, c`watched
      ensures Mirror() && c.watched == old(c.watched)[1..]
    {
      var wk := c.watched[0];
      var list := Without(watchers[wk], c);
      WithoutOne(watchers[wk], c);
      if list == [] {
        watchers := watchers - {wk};
      } else {
        watchers := watchers[wk := list];
      }
      assert wk !in c.watched[1..];
      c.watched := c.watched[1..];
    }

    // ----- touching -----

    /** touchWatchedKey */
    method TouchWatchedKey(wk: WatchKey)
      requires Valid()
      modifies this`log, clients`dirtyCas
      ensures Valid() && log == old(log) + [Touched(wk)]
    {
      hide Mirror, Dirty, Watching, ToSet;
      ghost var e := Touched(wk);
      WatchersAre(wk);
      forall d | d in clients
        ensures Watching(log + [e], d) == Watching(log, d)
                && Dirty(log + [e], d) == (Dirty(log, d) || wk in ToSet(d.watched))
      {
        LogTouched(wk, d);
      }
      log := log + [e];
      if wk in watchers { MarkAll(watchers[wk]); }
    }

    lemma {:induction false} WatchersAre(wk: WatchKey)
      requires Mirror()
      ensures forall d <- clients :: wk in ToSet(d.watched) <==> wk in watchers && d in watchers[wk]
      ensures wk in watchers ==> forall d <- watchers[wk] :: d in clients
    {
    }

    lemma {:induction false} LogTouched(wk: WatchKey, d: Client)
      requires ToSet(d.watched) == Watching(log, d)
      ensures Watching(log + [Touched(wk)], d) == Watching(log, d)
      ensures Dirty(log + [Touched(wk)], d) == (Dirty(log, d) || wk in ToSet(d.watched))
    {
      Snoc(log, Touched(wk), d);
    }

    method MarkAll(list: seq<Client>)
      requires forall d :: d in list ==> d in clients
      modifies clients`dirtyCas
      ensures forall d :: d in clients ==> d.dirtyCas == (old(d.dirtyCas) || d in list)
    {
      var i := 0;
      while i < |list|
        invariant 0 <= i <= |list|
        invariant forall d :: d in clients ==> d.dirtyCas == (old(d.dirtyCas) || d in list[..i])
      {
        assert list[i] in list;
        list[i].dirtyCas := true;
        i := i + 1;
      }
      assert list[..|list|] == list;
    }

    /** touchWatchedKeysOnFlush, for one database or for all. */
    method TouchOnFlush(all: bool, db: nat)
      requires Valid()
      modifies this`log, clients`dirtyCas
      ensures Valid() && log == old(log) + [Flushed(Present(data, all, db))]
    {
      hide Mirror, Dirty, Watching, ToSet, Present, WatchesAny;
      ghost var gone := Present(data, all, db);
      ghost var e := Flushed(gone);
      var i := 0;
      while i < |clients|
        invariant 0 <= i <= |clients| && log == old(log)
        invariant forall d :: d in clients ==>
                    d.dirtyCas == (old(d.dirtyCas) || (d in clients[..i] && WatchesAny(gone, d.watched)))
      {
        TouchClient(clients[i], all, db);
        assert clients[..i + 1] == clients[..i] + [clients[i]];
        i := i + 1;
      }
      assert clients[..|clients|] == clients;
      forall d | d in clients
        ensures Watching(log + [e], d) == Watching(log, d)
        ensures Dirty(log + [e], d) == (Dirty(log, d) || WatchesAny(gone, d.watched))
      {
        LogFlushed(gone, d);
      }
      log := log + [e];
    }

    lemma {:induction false} LogFlushed(gone: set<WatchKey>, d: Client)
      requires ToSet(d.watched) == Watching(log, d)
      ensures Watching(log + [Flushed(gone)], d) == Watching(log, d)
      ensures Dirty(log + [Flushed(gone)], d) == (Dirty(log, d) || WatchesAny(gone, d.watched))
    {
      hide Dirty, Watching;
      Snoc(log, Flushed(gone), d);
    }

    /** The inner loop, over the keys that one client watches. */
    method TouchClient(c: Client, all: bool, db: nat)
      modifies c`dirtyCas
      ensures c.dirtyCas == (old(c.dirtyCas) || WatchesAny(Present(data, all, db), c.watched))
    {
      ghost var gone := Present(data, all, db);
      var j := 0;
      while j < |c.watched|
        invariant 0 <= j <= |c.watched|
        invariant c.dirtyCas == (old(c.dirtyCas) || exists k :: 0 <= k < j && c.watched[k] in gone)
      {
        var wk := c.watched[j];
        if all || wk.db == db {
          if wk in data { c.dirtyCas := true; }
        }
        j := j + 1;
      }
      if WatchesAny(gone, c.watched) {
        var wk :| wk in gone * ToSet(c.watched);
        assert wk in c.watched;
      }
      if k :| 0 <= k < |c.watched| && c.watched[k] in gone {
        assert c.watched[k] in gone * ToSet(c.watched);
      }
    }

    // ----- commands -----

    method AddClient() returns (c: Client)
      requires Valid()
      modifies this`clients, this`log
      ensures Valid() && fresh(c) && clients == old(clients) + [c] && log == old(log) + [Cleared(c)]
    {
      c := new Client();
      Enlist(c);
    }

    method Enlist(c: Client)
      requires Valid() && c !in clients && c.watched == [] && !c.dirtyCas && !c.dirtyExec && c.queue == []
      modifies this`clients, this`log
      ensures Valid() && clients == old(clients) + [c] && log == old(log) + [Cleared(c)]
    {
      hide Dirty, Watching, ToSet, NoDup;
      NewClient(c);
      forall d | d in clients
        ensures Watching(log + [Cleared(c)], d) == Watching(log, d) && Dirty(log + [Cleared(c)], d) == Dirty(log, d)
      {
        LogCleared(c, d);
      }
      log := log + [Cleared(c)];
      AddedDistinct(clients, c);
      clients := clients + [c];
    }

    lemma {:induction false} NewClient(c: Client)
      requires c.watched == []
      ensures Watching(log + [Cleared(c)], c) == ToSet(c.watched) && !Dirty(log + [Cleared(c)], c)
      ensures NoDup(c.watched)
    {
      Snoc(log, Cleared(c), c);
    }

    lemma {:induction false} LogCleared(c: Client, d: Client)
      ensures Watching(log + [Cleared(c)], d) == if c == d then {} else Watching(log, d)
      ensures Dirty(log + [Cleared(c)], d) == (c != d && Dirty(log, d))
    {
      hide Dirty, Watching;
      Snoc(log, Cleared(c), d);
    }

    /** What freeClient does here. */
    method FreeClient(c: Client)
      requires Valid() && c in clients
      modifies this`clients, this`watchers, this`log, c
      ensures Valid() && clients == Without(old(clients), c)
      ensures forall wk <- watchers :: c !in watchers[wk]
    {
      hide Mirror, Logged, Dirty, Without;
      ClearLog(c);
      UnwatchAllKeys(c);
      Delist(c);
    }

    method Delist(c: Client)
      requires Mirror() && Logged() && c.watched == []
      modifies this`clients
      ensures Mirror() && Logged() && clients == Without(old(clients), c)
      ensures forall d :: d in clients ==> d != c && d in old(clients)
      ensures forall wk <- watchers :: c !in watchers[wk]
    {
      hide Watching, ToSet, NoDup;
      WithoutOne(clients, c);
      clients := Without(clients, c);
    }

    /** For all other clients, clearing c changes nothing. */
    lemma {:induction false} ClearLog(c: Client)
      ensures forall d :: d in clients ==> Dirty(log + [Cleared(c)], d) == (c != d && Dirty(log, d))
    {
      forall d | d in clients ensures Dirty(log + [Cleared(c)], d) == (c != d && Dirty(log, d)) {
        LogCleared(c, d);
      }
    }

    /** watchCommand for one key */
    method WatchCommand(c: Client, key: Key) returns (r: Reply)
      requires Valid() && c in clients
      modifies this`watchers, this`log, c`watched
      ensures Valid()
      ensures if c.multi then r == Error && log == old(log) && c.watched == old(c.watched)
              else r == Ok && log == old(log) + [Watched(c, WatchKey(c.db, key))]
    {
      if c.multi { return Error; }
      WatchForKey(c, key);
      return Ok;
    }

    /** unwatchCommand clears DIRTY_CAS and no other flag. */
    method UnwatchCommand(c: Client)
      requires Valid() && c in clients
      modifies this`watchers, this`log, c`watched, c`dirtyCas
      ensures Valid() && c.watched == [] && !c.dirtyCas && log == old(log) + [Cleared(c)]
    {
      hide Dirty, Watching, ToSet, Mirror;
      ClearLog(c);
      UnwatchAllKeys(c);
      c.dirtyCas := false;
    }

    method MultiCommand(c: Client) returns (r: Reply)
      requires Valid() && c in clients
      modifies c`multi
      ensures Valid() && c.multi && r == if old(c.multi) then Error else Ok
    {
      hide Mirror, Logged, Dirty;
      if c.multi { return Error; }
      c.multi := true;
      return Ok;
    }

    /** queueMultiCommand */
    method QueueMultiCommand(c: Client, cmd: Command) returns (r: Reply)
      requires Valid() && c in clients && c.multi
      modifies c`queue
      ensures Valid() && c.queue == old(c.queue) + [cmd] && r == Queued
    {
      hide Mirror, Logged, Dirty;
      c.queue := c.queue + [cmd];
      return Queued;
    }

    /** flagTransaction */
    method FlagTransaction(c: Client)
      requires Valid() && c in clients
      modifies c`dirtyExec
      ensures Valid() && c.dirtyExec == (old(c.dirtyExec) || c.multi)
    {
      hide Mirror, Logged, Dirty;
      if c.multi { c.dirtyExec := true; }
    }

    method DiscardTransaction(c: Client)
      requires Valid() && c in clients
      modifies this`watchers, this`log, c`watched, c`dirtyCas, c`dirtyExec, c`multi, c`queue
      ensures Valid() && c.watched == [] && log == old(log) + [Cleared(c)]
      ensures !c.dirtyCas && !c.dirtyExec && !c.multi && c.queue == []
    {
      hide Dirty, Watching, ToSet, Mirror;
      ClearLog(c);
      c.queue := [];
      c.multi, c.dirtyCas, c.dirtyExec := false, false, false;
      UnwatchAllKeys(c);
    }

    method DiscardCommand(c: Client) returns (r: Reply)
      requires Valid() && c in clients
      modifies this`watchers, this`log, c`watched, c`dirtyCas, c`dirtyExec, c`multi, c`queue
      ensures Valid() && r == if old(c.multi) then Ok else Error
      ensures if old(c.multi) then !c.multi && c.queue == [] && log == old(log) + [Cleared(c)] else log == old(log)
    {
      if !c.multi { return Error; }
      DiscardTransaction(c);
      return Ok;
    }

    /** The calls of signalModifiedKey of one command. */
    method TouchAll(touched: seq<WatchKey>)
      requires Valid()
      modifies this`log, clients`dirtyCas
      ensures Valid() && log == old(log) + TouchEvents(touched)
    {
      hide Valid;
      var i := 0;
      while i < |touched|
        invariant 0 <= i <= |touched| && Valid() && log == old(log) + TouchEvents(touched)[..i]
      {
        TouchWatchedKey(touched[i]);
        assert TouchEvents<Client>(touched)[..i + 1] == TouchEvents(touched)[..i] + [Touched(touched[i])];
        i := i + 1;
      }
    }

    /** call: one command executed for a client. */
    method Call(c: Client, cmd: Command)
      requires Valid() && c in clients
      modifies this`data, this`watchers, this`log, c`db, c`watched, clients`dirtyCas
      ensures Valid() && (data, c.db) == RunOne(sem, (old(data), old(c.db)), cmd)
      ensures log == old(log) + EventsOf(sem, (old(data), old(c.db)), c, cmd)
    {
      hide Mirror, Logged, Dirty, Present, Applied, Touches, TouchEvents;
      match cmd {
        case Select(db) =>
          c.db := db;
        case Unwatch =>
          UnwatchCommand(c);
        case FlushDb =>
          TouchOnFlush(false, c.db);
          data := data - Present(data, false, c.db);
        case FlushAll =>
          TouchOnFlush(true, c.db);
          data := map[];
        case Op(argv) =>
          var touched := Touches(sem, data, c.db, argv);
          data := Applied(sem, data, c.db, argv);
          TouchAll(touched);
      }
    }

    /** The loop of execCommand. */
    method RunQueue(c: Client)
      requires Valid() && c in clients
      modifies this`data, this`watchers, this`log, c`db, c`watched, clients`dirtyCas
      ensures Valid() && (data, c.db) == RunAll(sem, (old(data), old(c.db)), c.queue)
      ensures log == old(log) + EventsAll(sem, (old(data), old(c.db)), c, c.queue)
    {
      hide Valid, RunOne, RunAll, EventsOf, EventsAll;
      ghost var s := (data, c.db);
      NothingRun(sem, s, c, c.queue);
      var j := 0;
      while j < |c.queue|
        invariant 0 <= j <= |c.queue| && Valid() && (data, c.db) == RunAll(sem, s, c.queue[..j])
        invariant log == old(log) + EventsAll(sem, s, c, c.queue[..j])
      {
        OneMore(sem, s, c, c.queue, j);
        ghost var before := log;
        Call(c, c.queue[j]);
        Slices.Assoc(old(log), EventsAll(sem, s, c, c.queue[..j]),
                     EventsOf(sem, RunAll(sem, s, c.queue[..j]), c, c.queue[j]));
        j := j + 1;
      }
    }

    /** execCommand: nothing is run if a flag says so, else the whole queue is, in order. */
    method Exec(c: Client) returns (r: Reply)
      requires Valid() && c in clients
      modifies this`data, this`watchers, this`log, c, clients`dirtyCas
      ensures Valid()
      ensures !old(c.multi) ==>
                r == Error && data == old(data) && log == old(log) && c.db == old(c.db) && c.watched == old(c.watched)
      ensures old(c.multi) ==> !c.multi && !c.dirtyCas && !c.dirtyExec && c.queue == [] && c.watched == []
      ensures old(c.multi) && (old(c.dirtyCas) || old(c.dirtyExec)) ==>
                && r == (if old(c.dirtyExec) then ExecAbort else Nil)
                && data == old(data) && c.db == old(c.db) && log == old(log) + [Cleared(c)]
      ensures old(c.multi) && !old(c.dirtyCas) && !old(c.dirtyExec) ==>
                && r == Ran(old(|c.queue|))
                && (data, c.db) == RunAll(sem, (old(data), old(c.db)), old(c.queue))
                && log == old(log) + [Cleared(c)] + EventsAll(sem, (old(data), old(c.db)), c, old(c.queue))
                    + [Cleared(c)]
    {
      hide Dirty, Watching, ToSet, NoDup, RunAll, EventsAll;
      if !c.multi { return Error; }
      if c.dirtyCas || c.dirtyExec {
        r := if c.dirtyExec then ExecAbort else Nil;
        DiscardTransaction(c);
        return;
      }
      UnwatchClean(c);
      var n := |c.queue|;
      RunQueue(c);
      DiscardTransaction(c);
      r := Ran(n);
    }

    /** unwatchAllKeys for a client that is not dirty. */
    method UnwatchClean(c: Client)
      requires Valid() && c in clients && !c.dirtyCas
      modifies this`watchers, this`log, c`watched
      ensures Valid() && c.watched == [] && log == old(log) + [Cleared(c)]
    {
      hide Dirty, Watching, ToSet, Mirror;
      ClearLog(c);
      UnwatchAllKeys(c);
    }

    /** EXEC runs the queue exactly when no key that the client watched was touched since the client was last
        clear, and no command failed to be queued. */
    lemma {:induction false} ExecRunsUnlessTouched(c: Client)
      requires Valid() && c in clients
      ensures c.dirtyCas <==> exists i: nat :: TouchedSince(log, i, c)
      ensures forall wk :: wk in c.watched <==> exists i: nat :: WatchedSince(log, i, c, wk)
    {
      DirtyIs(log, c);
      forall wk ensures wk in c.watched <==> exists i: nat :: WatchedSince(log, i, c, wk) {
        WatchingIs(log, c, wk);
        assert wk in c.watched <==> wk in ToSet(c.watched);
      }
    }
  }

  // ----- whole runs -----

  datatype Action =
    | Connect
    | Close(i: nat)
    | Watch(i: nat, key: Key)
    | Multi(i: nat)
    | Discard(i: nat)
    | Execute(i: nat)
    | FailToQueue(i: nat)
    | Send(i: nat, cmd: Command)

  /** What client i does. A command is queued inside MULTI and executed at once outside. */
  method Act(s: Server, a: Action)
    requires s.Valid()
    modifies s, s.clients
    ensures s.Valid()
    ensures forall k :: 0 <= k < |s.clients| ==> s.clients[k] in old(s.clients) || fresh(s.clients[k])
  {
    match a {
      case Connect => var _ := s.AddClient();
      case Close(i) => if i < |s.clients| { s.FreeClient(s.clients[i]); }
      case Watch(i, key) => if i < |s.clients| { var _ := s.WatchCommand(s.clients[i], key); }
      case Multi(i) => if i < |s.clients| { var _ := s.MultiCommand(s.clients[i]); }
      case Discard(i) => if i < |s.clients| { var _ := s.DiscardCommand(s.clients[i]); }
      case Execute(i) => if i < |s.clients| { var _ := s.Exec(s.clients[i]); }
      case FailToQueue(i) => if i < |s.clients| { s.FlagTransaction(s.clients[i]); }
      case Send(i, cmd) =>
        if i < |s.clients| {
          var c := s.clients[i];
          if c.multi { var _ := s.QueueMultiCommand(c, cmd); } else { s.Call(c, cmd); }
        }
    }
  }

  /** After any run of many clients, each is marked dirty exactly if one of the keys it was watching was touched, or
      flushed while present, since it was last cleared. */
  method Run(s: Server, actions: seq<Action>)
    requires s.Valid()
    modifies s, s.clients
    ensures s.Valid()
    ensures forall c :: c in s.clients ==> (c.dirtyCas <==> exists i: nat :: TouchedSince(s.log, i, c))
  {
    var i := 0;
    while i < |actions|
      invariant s.Valid()
      invariant forall k :: 0 <= k < |s.clients| ==> s.clients[k] in old(s.clients) || fresh(s.clients[k])
    {
      Act(s, actions[i]);
      i := i + 1;
    }
    forall c | c in s.clients ensures c.dirtyCas <==> exists i: nat :: TouchedSince(s.log, i, c) {
      s.ExecRunsUnlessTouched(c);
    }
  }

  lemma {:induction false} NothingRun<C>(sem: Semantics, s: (Data, nat), c: C, cmds: seq<Command>)
    ensures RunAll(sem, s, cmds[..0]) == s && EventsAll(sem, s, c, cmds[..0]) == [] && cmds[..|cmds|] == cmds
  {
  }
}
