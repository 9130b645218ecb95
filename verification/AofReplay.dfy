/** What a log of commands does to the numbered databases. */
module AofReplay {
  import opened Bytes
  import opened AofFormat

  /** The dataset and the database that is selected. */
  datatype Position<D> = At(data: D, db: nat)

  const SELECT: seq<Byte> := [83, 69, 76, 69, 67, 84]

  function SelectCmd(db: nat): (argv: Argv) {
    [SELECT, Dec(db)]
  }

  predicate IsSelect(argv: Argv) {
    |argv| == 2 && argv[0] == SELECT
  }

  /** A command in the log: SELECT moves on to a database, anything else is a deterministic change of it. */
  function Step<D>(exec: (D, nat, Argv) -> D, p: Position<D>, argv: Argv): Position<D> {
    if IsSelect(argv) then
      var db := Number(argv[1]);
      if db >= 0 then At(p.data, db) else p
    else At(exec(p.data, p.db, argv), p.db)
  }

  function Replay<D>(exec: (D, nat, Argv) -> D, p: Position<D>, log: seq<Argv>): Position<D> {
    if log == [] then p else Step(exec, Replay(exec, p, log[..|log| - 1]), log[|log| - 1])
  }

  lemma {:induction false} ReplaySnoc<D>(exec: (D, nat, Argv) -> D, p: Position<D>, log: seq<Argv>, argv: Argv)
    ensures Replay(exec, p, log + [argv]) == Step(exec, Replay(exec, p, log), argv)
  {
    assert (log + [argv])[..|log|] == log;
  }

  lemma {:induction false} ReplayAppend<D>(exec: (D, nat, Argv) -> D, p: Position<D>, a: seq<Argv>, b: seq<Argv>)
    ensures Replay(exec, p, a + b) == Replay(exec, Replay(exec, p, a), b)
    decreases |b|
  {
    hide Step;
    if b == [] {
      assert a + b == a;
    } else {
      assert (a + b)[..|a + b| - 1] == a + b[..|b| - 1];
      ReplayAppend(exec, p, a, b[..|b| - 1]);
    }
  }

  lemma {:induction false} SelectStep<D>(exec: (D, nat, Argv) -> D, p: Position<D>, db: nat)
    ensures Step(exec, p, SelectCmd(db)) == At(p.data, db)
  {
    NumberOfDec(db, []);
    assert Dec(db) + [] == Dec(db);
  }

  /** The log leads from p to the live dataset d; unless selected is -1 it leaves that database selected; and
      every longer part of it than its first base commands leads to a dataset that was once live. */
  ghost predicate Tracks<D>(exec: (D, nat, Argv) -> D, p: Position<D>, log: seq<Argv>, base: nat, d: D,
                            selected: int, history: seq<D>)
  {
    && base <= |log| && AllPrintable(log)
    && Replay(exec, p, log).data == d
    && (selected != -1 ==> Replay(exec, p, log).db == selected)
    && (forall k :: base <= k <= |log| ==> Replay(exec, p, log[..k]).data in history)
  }

  lemma {:induction false} TracksNothing<D>(exec: (D, nat, Argv) -> D, p: Position<D>, history: seq<D>)
    requires p.data in history
    ensures Tracks(exec, p, [], 0, p.data, -1, history)
  {
  }

  lemma {:induction false} TracksWhole<D>(exec: (D, nat, Argv) -> D, p: Position<D>, log: seq<Argv>)
    requires AllPrintable(log)
    ensures Tracks(exec, p, log, |log|, Replay(exec, p, log).data, -1, [Replay(exec, p, log).data])
  {
    assert log[..|log|] == log;
  }

  /** Being told to issue SELECT again does no harm. */
  lemma {:induction false} TracksReselect<D>(exec: (D, nat, Argv) -> D, p: Position<D>, log: seq<Argv>, base: nat, d: D,
                                             selected: int, history: seq<D>)
    requires Tracks(exec, p, log, base, d, selected, history)
    ensures Tracks(exec, p, log, base, d, -1, history)
  {
  }

  lemma {:induction false} TracksSnoc<D>(exec: (D, nat, Argv) -> D, p: Position<D>, log: seq<Argv>, base: nat, d: D,
                                         selected: int, history: seq<D>, argv: Argv, d': D, selected': int,
                                         history': seq<D>)
    requires Tracks(exec, p, log, base, d, selected, history) && Printable(argv)
    requires history <= history' && d' in history'
    requires Step(exec, Replay(exec, p, log), argv).data == d'
    requires selected' != -1 ==> Step(exec, Replay(exec, p, log), argv).db == selected'
    ensures Tracks(exec, p, log + [argv], base, d', selected', history')
  {
    ReplaySnoc(exec, p, log, argv);
    hide Replay, Step, Printable;
    assert forall d :: d in history ==> d in history';
    forall k | base <= k <= |log + [argv]| ensures Replay(exec, p, (log + [argv])[..k]).data in history' {
      if k <= |log| {
        assert (log + [argv])[..k] == log[..k];
      } else {
        assert (log + [argv])[..k] == log + [argv];
      }
    }
  }

  /** What feedAppendOnlyFile appends for a command on database db. */
  function Fed(selected: int, db: nat, argv: Argv): seq<Argv> {
    if db != selected then [SelectCmd(db), argv] else [argv]
  }

  lemma {:induction false} DecPrintable(db: nat)
    requires db <= INT_MAX
    ensures Printable(SelectCmd(db))
  {
    DecFits(db);
  }

  lemma {:induction false} TracksFed<D>(exec: (D, nat, Argv) -> D, p: Position<D>, log: seq<Argv>, base: nat, d: D,
                                        selected: int, history: seq<D>, db: nat, argv: Argv)
    requires Tracks(exec, p, log, base, d, selected, history) && d in history
    requires Printable(argv) && !IsSelect(argv) && db <= INT_MAX && selected >= -1
    ensures var d' := exec(d, db, argv);
            Tracks(exec, p, log + Fed(selected, db, argv), base, d', db, history + [d'])
  {
    var d' := exec(d, db, argv);
    if db != selected {
      var s := SelectCmd(db);
      SelectStep(exec, Replay(exec, p, log), db);
      DecPrintable(db);
      TracksSnoc(exec, p, log, base, d, selected, history, s, d, db, history);
      TracksSnoc(exec, p, log + [s], base, d, db, history, argv, d', db, history + [d']);
      assert log + [s] + [argv] == log + Fed(selected, db, argv);
    } else {
      TracksSnoc(exec, p, log, base, d, selected, history, argv, d', db, history + [d']);
    }
  }

  /** The log that rebuilds a dataset, and behind it the log of what happened since. */
  lemma {:induction false} TracksJoin<D>(exec: (D, nat, Argv) -> D, p: Position<D>, dump: seq<Argv>, log: seq<Argv>,
                                         d: D, selected: int, history: seq<D>)
    requires AllPrintable(dump)
    requires Tracks(exec, Replay(exec, p, dump), log, 0, d, selected, history)
    ensures Tracks(exec, p, dump + log, |dump|, d, selected, history)
  {
    hide Printable;
    ReplayAppend(exec, p, dump, log);
    forall k | |dump| <= k <= |dump + log| ensures Replay(exec, p, (dump + log)[..k]).data in history {
      assert (dump + log)[..k] == dump + log[..k - |dump|];
      ReplayAppend(exec, p, dump, log[..k - |dump|]);
    }
  }
}
