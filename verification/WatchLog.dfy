/** WATCH, MULTI and EXEC: what a log of events says a client watches, and whether that was touched. */
module WatchLog {
  import opened Bytes

  type Key = seq<Byte>
  datatype WatchKey = WatchKey(db: nat, key: Key)

  /** What happens to watched keys: a client watches one; a client stops watching and is clean again; a key is
      touched; the keys that are present in what is flushed go. */
  datatype Event<C> =
    | Watched(c: C, wk: WatchKey)
    | Cleared(c: C)
    | Touched(wk: WatchKey)
    | Flushed(gone: set<WatchKey>)

  /** What a client watches after event e. */
  ghost function WatchingAfter<C>(before: set<WatchKey>, e: Event<C>, c: C): set<WatchKey> {
    if e.Watched? && e.c == c then before + {e.wk} else if e == Cleared(c) then {} else before
  }

  ghost function Watching<C>(log: seq<Event<C>>, c: C): set<WatchKey> {
    if log == [] then {} else WatchingAfter(Watching(log[..|log| - 1], c), log[|log| - 1], c)
  }

  /** Whether event e touches one of the keys. */
  ghost predicate Hits<C>(e: Event<C>, keys: set<WatchKey>) {
    match e
    case Touched(wk) => wk in keys
    case Flushed(gone) => gone * keys != {}
    case _ => false
  }

  ghost predicate Dirty<C>(log: seq<Event<C>>, c: C) {
    log != [] &&
    var before := log[..|log| - 1];
    log[|log| - 1] != Cleared(c) && (Dirty(before, c) || Hits(log[|log| - 1], Watching(before, c)))
  }

  lemma {:induction false} Snoc<C>(log: seq<Event<C>>, e: Event<C>, c: C)
    ensures Watching(log + [e], c) == WatchingAfter(Watching(log, c), e, c)
    ensures Dirty(log + [e], c) <==> e != Cleared(c) && (Dirty(log, c) || Hits(e, Watching(log, c)))
  {
    assert (log + [e])[..|log|] == log;
  }

  /** No event from i on clears the client. */
  ghost predicate NoClear<C>(log: seq<Event<C>>, i: nat, c: C) {
    forall j :: i <= j < |log| ==> log[j] != Cleared(c)
  }

  /** Event i is one in which the client watches the key, and it has not been cleared since. */
  ghost predicate WatchedSince<C>(log: seq<Event<C>>, i: nat, c: C, wk: WatchKey) {
    i < |log| && log[i] == Watched(c, wk) && NoClear(log, i, c)
  }

  /** Event i touches, or flushes while present, a key the client was watching then, and it was not cleared since. */
  ghost predicate TouchedSince<C>(log: seq<Event<C>>, i: nat, c: C) {
    i < |log| && Hits(log[i], Watching(log[..i], c)) && NoClear(log, i, c)
  }

  /** A client watches exactly the keys for which it called WATCH since it was last cleared. */
  lemma {:induction false} WatchingIs<C>(log: seq<Event<C>>, c: C, wk: WatchKey)
    ensures wk in Watching(log, c) <==> exists i: nat :: WatchedSince(log, i, c, wk)
    decreases |log|
  {
    if log != [] {
      var n := |log| - 1;
      var front := log[..n];
      WatchingIs(front, c, wk);
      if wk in Watching(log, c) {
        if wk in Watching(front, c) && log[n] != Watched(c, wk) {
          var i: nat :| WatchedSince(front, i, c, wk);
          assert log[i] == front[i];
          assert forall j :: i <= j < n ==> log[j] == front[j];
          assert WatchedSince(log, i, c, wk);
        } else {
          assert WatchedSince(log, n, c, wk);
        }
      } else if i: nat :| WatchedSince(log, i, c, wk) {
        if i < n {
          assert forall j :: i <= j < n ==> log[j] == front[j];
          assert WatchedSince(front, i, c, wk);
        }
      }
    }
  }

  /** A client is dirty exactly if a key that it was then watching was touched since it was last cleared. */
  lemma {:induction false} DirtyIs<C>(log: seq<Event<C>>, c: C)
    ensures Dirty(log, c) <==> exists i: nat :: TouchedSince(log, i, c)
    decreases |log|
  {
    if log != [] {
      var n := |log| - 1;
      var front := log[..n];
      DirtyIs(front, c);
      if Dirty(log, c) {
        if Dirty(front, c) {
          var i: nat :| TouchedSince(front, i, c);
          assert log[..i] == front[..i];
          assert forall j :: i <= j < n ==> log[j] == front[j];
          assert TouchedSince(log, i, c);
        } else {
          assert TouchedSince(log, n, c);
        }
      } else if i: nat :| TouchedSince(log, i, c) {
        if i < n {
          assert log[..i] == front[..i];
          assert forall j :: i <= j < n ==> log[j] == front[j];
          assert TouchedSince(front, i, c);
        }
      }
    }
  }
}
