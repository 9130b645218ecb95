/** The function that $resolve.study returns: the plan carried out over promises. The promises themselves are
    events from outside: a callback is called at most once, and only when its promise is settled. */
module Resolver {
  import opened Study

  /** The reason of a failure, which may be undefined. */
  datatype Reason = Undefined | Because(code: int)

  datatype Parent = Failed(reason: Reason) | Ready | Pending(promises: set<Key>)

  /** Where an invocable is: waiting for its parameters, invoked, fulfilled or rejected with its own callback
      still to come, and with that behind it. */
  datatype Progress = Waiting | Running | Fulfilled | Failing | Finished | Rejected

  predicate Settled(p: Progress) { p == Fulfilled || p == Finished }

  predicate Blocks(failure: Option<Reason>) {
    failure.Some? && failure.value.Because?
  }

  // ----- what is recorded of a run -----

  /** A failure is recorded, or an invocable has come to the point where it may be invoked. */
  datatype Happening = Fails(reason: Reason) | Comes(key: Key, invoked: bool)

  /** The reason on record after all this: that of the last failure. */
  function LastFailure(log: seq<Happening>): (failure: Option<Reason>) {
    if log == [] then None
    else if log[|log| - 1].Fails? then Some(log[|log| - 1].reason)
    else LastFailure(log[..|log| - 1])
  }

  function InvokedIn(log: seq<Happening>): (started: seq<Key>) {
    if log == [] then [] else
    var last := log[|log| - 1];
    InvokedIn(log[..|log| - 1]) + if last.Comes? && last.invoked then [last.key] else []
  }

  /** Every invocable that has come to that point was invoked, unless the last failure before had a reason. */
  ghost predicate Recorded(log: seq<Happening>, failure: Option<Reason>, started: seq<Key>) {
    && failure == LastFailure(log) && started == InvokedIn(log)
    && (forall i :: 0 <= i < |log| && log[i].Comes? ==> (log[i].invoked <==> !Blocks(LastFailure(log[..i]))))
  }

  ghost predicate InvokedAfter(log: seq<Happening>, i: int, j: int) {
    0 <= i < j < |log| && log[i].Fails? && log[j].Comes? && log[j].invoked
  }

  ghost predicate OnlyReasons(log: seq<Happening>) {
    forall i :: 0 <= i < |log| && log[i].Fails? ==> log[i].reason.Because?
  }

  /** What the check of $$failure is meant to prevent. */
  ghost predicate InvokedAfterReason(log: seq<Happening>) {
    exists i, j :: InvokedAfter(log, i, j) && log[i].reason.Because?
  }

  /** The next to come at j, with a failure at i behind it that has a reason, meets one on record that has none. */
  ghost predicate TakesOver(log: seq<Happening>, i: int, j: int) {
    0 <= i < j < |log| && log[i].Fails? && log[i].reason.Because? && log[j].Comes?
    && LastFailure(log[..j]) == Some(Undefined)
  }

  lemma {:induction false} LastFailureIs(log: seq<Happening>, i: nat)
    requires i < |log| && log[i].Fails?
    ensures LastFailure(log).Some?
    ensures exists j :: i <= j < |log| && log[j].Fails? && LastFailure(log) == Some(log[j].reason)
    decreases |log|
  {
    var n := |log| - 1;
    if log[n].Fails? {
      assert i <= n && LastFailure(log) == Some(log[n].reason);
    } else {
      LastFailureIs(log[..n], i);
      var j :| i <= j < n && log[..n][j].Fails? && LastFailure(log[..n]) == Some(log[..n][j].reason);
      assert log[j].Fails? && LastFailure(log) == Some(log[j].reason);
    }
  }

  /** Over any run, an invocable is invoked after a failure that has a reason if and only if one comes to be invoked
      when there has been such a failure and the last one has no reason. */
  lemma {:induction false} InvokedAfterReasonExactly(log: seq<Happening>, failure: Option<Reason>, started: seq<Key>)
    requires Recorded(log, failure, started)
    ensures InvokedAfterReason(log) <==> exists i, j :: TakesOver(log, i, j)
  {
    if InvokedAfterReason(log) {
      var i, j :| InvokedAfter(log, i, j) && log[i].reason.Because?;
      assert log[..j][i].Fails?;
      LastFailureIs(log[..j], i);
      assert TakesOver(log, i, j);
    }
    if i, j :| TakesOver(log, i, j) {
      assert InvokedAfter(log, i, j);
    }
  }

  /** So nothing is invoked after the first failure if all failures have reasons. */
  lemma {:induction false} NothingAfterFailure(log: seq<Happening>, failure: Option<Reason>, started: seq<Key>, i: int,
                                               j: int)
    requires Recorded(log, failure, started)
    requires OnlyReasons(log)
    ensures !InvokedAfter(log, i, j)
  {
    if InvokedAfter(log, i, j) {
      assert log[..j][i].Fails?;
      LastFailureIs(log[..j], i);
    }
  }

  lemma {:induction false} RecordedFailure(log: seq<Happening>, failure: Option<Reason>, started: seq<Key>,
                                           reason: Reason)
    requires Recorded(log, failure, started)
    ensures Recorded(log + [Fails(reason)], Some(reason), started)
  {
    RecordedOne(log, failure, started, Fails(reason));
  }

  lemma {:induction false} RecordedInvoked(log: seq<Happening>, failure: Option<Reason>, started: seq<Key>, k: Key)
    requires Recorded(log, failure, started)
    ensures Recorded(log + [Comes(k, !Blocks(failure))], failure, if Blocks(failure) then started else started + [k])
  {
    RecordedOne(log, failure, started, Comes(k, !Blocks(failure)));
  }

  lemma {:induction false} RecordedOne(log: seq<Happening>, failure: Option<Reason>, started: seq<Key>, h: Happening)
    requires Recorded(log, failure, started) && (h.Comes? ==> h.invoked == !Blocks(failure))
    ensures Recorded(log + [h], if h.Fails? then Some(h.reason) else failure,
                     started + if h.Comes? && h.invoked then [h.key] else [])
  {
    var log' := log + [h];
    assert log'[..|log|] == log;
    forall i | 0 <= i < |log'| && log'[i].Comes? ensures log'[i].invoked <==> !Blocks(LastFailure(log'[..i])) {
      if i < |log| { assert log'[..i] == log[..i]; }
    }
  }

  // ----- the invariant -----

  /** The invocables that the loop has come to and that no local replaces have a promise each. */
  ghost predicate Published(plan: seq<Key>, locals: set<Key>, next: nat, progress: map<Key, Progress>,
                            waitParams: map<Key, int>, callbacks: map<Key, multiset<Key>>)
  {
    && next <= |plan|
    && (forall k :: k in progress <==> k in plan[..next] && k !in locals)
    && progress.Keys == waitParams.Keys == callbacks.Keys
  }

  /** wait counts the parent and the invocables that are not finished. */
  ghost predicate Counted(plan: seq<Key>, locals: set<Key>, next: nat, progress: map<Key, Progress>,
                          finished: set<Key>, wait: int, parentDone: bool, fulfilled: nat)
  {
    && next <= |plan|
    && (forall k :: k in finished <==>
          k in plan[..next] && (k in locals || (k in progress && progress[k] == Finished)))
    && wait == (if parentDone then 0 else 1) + |plan| - |finished|
    && fulfilled == (if wait == 0 then 1 else 0)
  }

  /** The parameters of k: waitParams counts those that are not there yet, among them those that failed; it is
      started only with all of them there. */
  ghost predicate ParamsAwaited(graph: Graph, locals: set<Key>, k: Key, progress: map<Key, Progress>,
                                wait: int, callbacks: multiset<Key>, started: seq<Key>)
    requires k in progress
  {
    && wait >= |callbacks|
    && (progress[k] == Waiting ==> wait == |callbacks|)
    && (progress[k] != Waiting && k !in started ==> wait > |callbacks|)
    && (k in started ==> progress[k] != Waiting && wait == 0)
    && (forall d :: Depends(graph, k, d) && d !in locals && wait == |callbacks| ==>
          d in progress && (d in callbacks || Settled(progress[d])))
    && (Settled(progress[k]) || progress[k] == Running || progress[k] == Failing ==> k in started)
  }

  ghost predicate Started(graph: Graph, locals: set<Key>, progress: map<Key, Progress>,
                          waitParams: map<Key, int>, callbacks: map<Key, multiset<Key>>, started: seq<Key>)
  {
    && progress.Keys == waitParams.Keys == callbacks.Keys
    && NoDup(started) && (forall k :: k in started ==> k in progress)
    && (forall k <- progress :: ParamsAwaited(graph, locals, k, progress, waitParams[k], callbacks[k], started))
  }

  /** A failure comes from the parent or from an invocable. */
  ghost predicate Failures(progress: map<Key, Progress>, failure: Option<Reason>, parentFailed: bool) {
    failure.Some? ==> parentFailed || exists k :: k in progress && progress[k] == Rejected
  }

  // ----- counting -----

  lemma {:induction false} Size(s: seq<Key>)
    requires NoDup(s)
    ensures |set k | k in s| == |s|
    decreases |s|
  {
    var all := set k | k in s;
    if s != [] {
      var front := s[..|s| - 1];
      var last := s[|s| - 1];
      Size(front);
      assert all == (set k | k in front) + {last};
      assert last !in front;
    } else {
      assert all == {};
    }
  }

  lemma {:induction false} SameSize(s: set<Key>, t: set<Key>)
    requires s <= t && |s| == |t|
    ensures s == t
  {
    if x :| x in t && x !in s {
      Subset(s, t - {x});
    }
  }

  /** wait is positive as long as anything is not finished. */
  lemma {:induction false} Unfinished(plan: seq<Key>, finished: set<Key>, k: Key)
    requires NoDup(plan) && (forall x :: x in finished ==> x in plan) && k in plan && k !in finished
    ensures |finished| < |plan|
  {
    var all := set x | x in plan;
    Size(plan);
    Subset(finished, all - {k});
  }

  lemma {:induction false} AtMostAll(plan: seq<Key>, finished: set<Key>)
    requires NoDup(plan) && (forall x :: x in finished ==> x in plan)
    ensures |finished| <= |plan|
    ensures |finished| == |plan| ==> forall x :: x in plan ==> x in finished
  {
    var all := set x | x in plan;
    Size(plan);
    Subset(finished, all);
    if |finished| == |plan| { SameSize(finished, all); }
  }

  // ----- what a step keeps -----

  /** Nothing is finished or taken back in the change of one invocable's progress. */
  lemma {:induction false} CountedKept(plan: seq<Key>, locals: set<Key>, next: nat, progress: map<Key, Progress>,
                                       finished: set<Key>, wait: int, parentDone: bool, fulfilled: nat, k: Key,
                                       p: Progress)
    requires Counted(plan, locals, next, progress, finished, wait, parentDone, fulfilled)
    requires k in progress && progress[k] != Finished && p != Finished
    ensures Counted(plan, locals, next, progress[k := p], finished, wait, parentDone, fulfilled)
  {
  }

  lemma {:induction false} CountedMore(plan: seq<Key>, locals: set<Key>, next: nat, progress: map<Key, Progress>,
                                       finished: set<Key>, wait: int, parentDone: bool, fulfilled: nat, k: Key)
    requires Counted(plan, locals, next, progress, finished, wait, parentDone, fulfilled) && NoDup(plan)
    requires k in progress && progress[k] != Finished && k !in locals && k in plan[..next]
    ensures wait > 0 && fulfilled == 0
    ensures Counted(plan, locals, next, progress[k := Finished], finished + {k}, wait - 1, parentDone,
                    if wait == 1 then 1 else 0)
  {
    Unfinished(plan, finished, k);
  }

  /** An invocable that waits for nothing more is started. */
  lemma {:induction false} StartedOne(graph: Graph, locals: set<Key>, progress: map<Key, Progress>,
                                      waitParams: map<Key, int>, callbacks: map<Key, multiset<Key>>, started: seq<Key>,
                                      k: Key, p: Progress)
    requires Started(graph, locals, progress, waitParams, callbacks, started)
    requires k in progress && progress[k] == Waiting && waitParams[k] == 0 && p != Waiting && !Settled(p)
    ensures Started(graph, locals, progress[k := p], waitParams, callbacks, started + [k])
  {
    var progress', started' := progress[k := p], started + [k];
    assert k !in started;
    forall x | x in progress'
      ensures ParamsAwaited(graph, locals, x, progress', waitParams[x], callbacks[x], started')
    {
      assert ParamsAwaited(graph, locals, x, progress, waitParams[x], callbacks[x], started);
    }
  }

  /** An invocable that is running or fulfilled moves on; a settled one stays settled. */
  lemma {:induction false} MovedOn(graph: Graph, locals: set<Key>, progress: map<Key, Progress>,
                                   waitParams: map<Key, int>, callbacks: map<Key, multiset<Key>>, started: seq<Key>,
                                   k: Key, p: Progress)
    requires Started(graph, locals, progress, waitParams, callbacks, started)
    requires k in progress && (progress[k] == Running || progress[k] == Fulfilled || progress[k] == Failing)
    requires p != Waiting && (Settled(progress[k]) ==> Settled(p))
    ensures Started(graph, locals, progress[k := p], waitParams, callbacks, started)
  {
    hide ParamsAwaited, NoDup;
    var progress' := progress[k := p];
    forall x | x in progress' ensures ParamsAwaited(graph, locals, x, progress', waitParams[x], callbacks[x], started) {
      OneMovedOn(graph, locals, x, progress, waitParams[x], callbacks[x], started, k, p);
    }
  }

  lemma {:induction false} OneMovedOn(graph: Graph, locals: set<Key>, x: Key, progress: map<Key, Progress>, wait: int,
                                      callbacks: multiset<Key>, started: seq<Key>, k: Key, p: Progress)
    requires x in progress && ParamsAwaited(graph, locals, x, progress, wait, callbacks, started)
    requires k in progress && (progress[k] == Running || progress[k] == Fulfilled || progress[k] == Failing)
    requires p != Waiting && (Settled(progress[k]) ==> Settled(p))
    ensures ParamsAwaited(graph, locals, x, progress[k := p], wait, callbacks, started)
  {
  }

  lemma {:induction false} OneArrived(graph: Graph, locals: set<Key>, k: Key, progress: map<Key, Progress>, wait: int,
                                      callbacks: multiset<Key>, started: seq<Key>, d: Key)
    requires k in progress && ParamsAwaited(graph, locals, k, progress, wait, callbacks, started) && d in callbacks
    requires d != k && d in progress ==> Settled(progress[d])
    ensures k !in started
    ensures ParamsAwaited(graph, locals, k, progress, wait - 1, callbacks - multiset{d}, started)
  {
    hide Settled;
    var c := callbacks - multiset{d};
    assert |c| == |callbacks| - 1 >= 0;
    forall x | Depends(graph, k, x) && x !in locals && wait - 1 == |c|
      ensures x in progress && (x in c || Settled(progress[x]))
    {
      if x != d { assert c[x] == callbacks[x]; }
    }
  }

  lemma {:induction false} OneFailed(graph: Graph, locals: set<Key>, k: Key, progress: map<Key, Progress>, wait: int,
                                     callbacks: multiset<Key>, started: seq<Key>, d: Key)
    requires k in progress && ParamsAwaited(graph, locals, k, progress, wait, callbacks, started) && d in callbacks
    ensures k !in started && (progress[k] == Waiting || progress[k] == Rejected)
    ensures ParamsAwaited(graph, locals, k, progress[k := Rejected], wait, callbacks - multiset{d}, started)
  {
    var c := callbacks - multiset{d};
    assert |c| == |callbacks| - 1 && |callbacks| > 0;
  }

  /** A parameter arrives. */
  lemma {:induction false} Arrived(graph: Graph, locals: set<Key>, progress: map<Key, Progress>,
                                   waitParams: map<Key, int>, callbacks: map<Key, multiset<Key>>, started: seq<Key>,
                                   k: Key, d: Key)
    requires Started(graph, locals, progress, waitParams, callbacks, started)
    requires k in progress && d in callbacks[k] && (d != k && d in progress ==> Settled(progress[d]))
    ensures k !in started
    ensures Started(graph, locals, progress, waitParams[k := waitParams[k] - 1],
                    callbacks[k := callbacks[k] - multiset{d}], started)
  {
    hide ParamsAwaited, NoDup, Settled;
    OneArrived(graph, locals, k, progress, waitParams[k], callbacks[k], started, d);
    OneReplaced(graph, locals, progress, waitParams, callbacks, started, k, waitParams[k] - 1,
                callbacks[k] - multiset{d});
  }

  lemma {:induction false} OneReplaced(graph: Graph, locals: set<Key>, progress: map<Key, Progress>,
                                       waitParams: map<Key, int>, callbacks: map<Key, multiset<Key>>, started: seq<Key>,
                                       k: Key, w: int, c: multiset<Key>)
    requires Started(graph, locals, progress, waitParams, callbacks, started)
    requires k in progress && ParamsAwaited(graph, locals, k, progress, w, c, started)
    ensures Started(graph, locals, progress, waitParams[k := w], callbacks[k := c], started)
  {
    hide ParamsAwaited, NoDup;
    assert waitParams[k := w].Keys == waitParams.Keys && callbacks[k := c].Keys == callbacks.Keys;
  }

  /** A parameter fails: its callback is used up, but it goes on being waited for. */
  lemma {:induction false} FailedParam(graph: Graph, locals: set<Key>, progress: map<Key, Progress>,
                                       waitParams: map<Key, int>, callbacks: map<Key, multiset<Key>>, started: seq<Key>,
                                       k: Key, d: Key)
    requires Started(graph, locals, progress, waitParams, callbacks, started)
    requires k in progress && d in callbacks[k]
    ensures k !in started && (progress[k] == Waiting || progress[k] == Rejected)
    ensures Started(graph, locals, progress[k := Rejected], waitParams,
                    callbacks[k := callbacks[k] - multiset{d}], started)
  {
    hide ParamsAwaited, NoDup;
    OneFailed(graph, locals, k, progress, waitParams[k], callbacks[k], started, d);
    var progress', callbacks' := progress[k := Rejected], callbacks[k := callbacks[k] - multiset{d}];
    forall x | x in progress'
      ensures ParamsAwaited(graph, locals, x, progress', waitParams[x], callbacks'[x], started)
    {
      if x != k { OthersUnsettled(graph, locals, x, progress, waitParams[x], callbacks[x], started, k, Rejected); }
    }
  }

  /** What an invocable waits for is not touched by another one that was not settled, nor is now. */
  lemma {:induction false} OthersUnsettled(graph: Graph, locals: set<Key>, x: Key, progress: map<Key, Progress>,
                                           wait: int, callbacks: multiset<Key>, started: seq<Key>, k: Key, p: Progress)
    requires x in progress && ParamsAwaited(graph, locals, x, progress, wait, callbacks, started)
    requires k in progress && k != x && !Settled(progress[k])
    ensures ParamsAwaited(graph, locals, x, progress[k := p], wait, callbacks, started)
  {
  }

  // ----- the resolution -----

  /** The parameters that there is a promise for and no local. */
  function Awaited(params: seq<Key>, promises: set<Key>, locals: set<Key>): seq<Key> {
    if params == [] then [] else
    var last := params[|params| - 1];
    Awaited(params[..|params| - 1], promises, locals) + if last in promises && last !in locals then [last] else []
  }

  lemma {:induction false} AwaitedHas(params: seq<Key>, promises: set<Key>, locals: set<Key>, d: Key)
    ensures d in Awaited(params, promises, locals) <==> d in params && d in promises && d !in locals
  {
    if params != [] {
      AwaitedHas(params[..|params| - 1], promises, locals, d);
      assert params == params[..|params| - 1] + [params[|params| - 1]];
    }
  }

  /** What the invocable k waits for. */
  function Waits(graph: Graph, locals: set<Key>, promises: set<Key>, k: Key): seq<Key> {
    if k in graph then Awaited(Params(graph[k]), promises, locals) else []
  }

  /** What the call of the function leaves of the invocable at i when nothing throws: a promise, unless a local
      replaces it, and it is running if it waits for nothing. */
  ghost predicate BegunAt(graph: Graph, plan: seq<Key>, locals: set<Key>, parentPromises: set<Key>, i: nat,
                          progress: map<Key, Progress>, waitParams: map<Key, int>, callbacks: map<Key, multiset<Key>>)
    requires i < |plan|
  {
    plan[i] !in locals ==>
      var k := plan[i];
      var list := Waits(graph, locals, parentPromises + Before(plan, locals, i), k);
      && k in progress && k in waitParams && k in callbacks
      && progress[k] == (if list == [] then Running else Waiting)
      && waitParams[k] == |list| && callbacks[k] == multiset(list)
  }

  ghost function Before(plan: seq<Key>, locals: set<Key>, i: nat): set<Key>
    requires i <= |plan|
  {
    set x | x in plan[..i] && x !in locals
  }

  ghost predicate Begun(graph: Graph, plan: seq<Key>, locals: set<Key>, parentPromises: set<Key>, next: nat,
                        progress: map<Key, Progress>, waitParams: map<Key, int>, callbacks: map<Key, multiset<Key>>)
  {
    next <= |plan| && forall i: nat :: i < next ==>
      BegunAt(graph, plan, locals, parentPromises, i, progress, waitParams, callbacks)
  }

  lemma {:induction false} BegunOther(graph: Graph, plan: seq<Key>, locals: set<Key>, parentPromises: set<Key>, i: nat,
                                      progress: map<Key, Progress>, waitParams: map<Key, int>,
                                      callbacks: map<Key, multiset<Key>>, k: Key, p: Progress, w: int, c: multiset<Key>)
    requires i < |plan| && BegunAt(graph, plan, locals, parentPromises, i, progress, waitParams, callbacks)
             && plan[i] != k
    ensures BegunAt(graph, plan, locals, parentPromises, i, progress[k := p], waitParams[k := w], callbacks[k := c])
  {
    hide Waits, Before;
  }

  lemma {:induction false} BegunLocal(graph: Graph, plan: seq<Key>, locals: set<Key>, parentPromises: set<Key>,
                                      next: nat, progress: map<Key, Progress>, waitParams: map<Key, int>,
                                      callbacks: map<Key, multiset<Key>>)
    requires Begun(graph, plan, locals, parentPromises, next, progress, waitParams, callbacks)
    requires next < |plan| && plan[next] in locals
    ensures Begun(graph, plan, locals, parentPromises, next + 1, progress, waitParams, callbacks)
  {
    hide Waits, Before;
  }

  lemma {:induction false} BegunNext(graph: Graph, plan: seq<Key>, locals: set<Key>, parentPromises: set<Key>,
                                     next: nat, progress: map<Key, Progress>, waitParams: map<Key, int>,
                                     callbacks: map<Key, multiset<Key>>, list: seq<Key>)
    requires NoDup(plan) && next < |plan| && Published(plan, locals, next, progress, waitParams, callbacks)
    requires Begun(graph, plan, locals, parentPromises, next, progress, waitParams, callbacks)
    requires plan[next] !in locals && list == Waits(graph, locals, parentPromises + progress.Keys, plan[next])
    ensures Begun(graph, plan, locals, parentPromises, next + 1,
                  progress[plan[next] := if list == [] then Running else Waiting],
                  waitParams[plan[next] := |list|], callbacks[plan[next] := multiset(list)])
  {
    hide Waits;
    assert progress.Keys == Before(plan, locals, next);
    hide Published, Before;
    var k, p := plan[next], if list == [] then Running else Waiting;
    var progress', waitParams', callbacks' := progress[k := p], waitParams[k := |list|], callbacks[k := multiset(list)];
    forall i: nat | i < next + 1
      ensures BegunAt(graph, plan, locals, parentPromises, i, progress', waitParams', callbacks')
    {
      if i < next {
        assert BegunAt(graph, plan, locals, parentPromises, i, progress, waitParams, callbacks);
        BegunOther(graph, plan, locals, parentPromises, i, progress, waitParams, callbacks, k, p, |list|,
                   multiset(list));
      }
    }
  }

  /** What proceed does to the failure on record, to the progress of k, and what happens in it. */
  function FailureAfter(failure: Option<Reason>, throws: Option<Reason>): (after: Option<Reason>) {
    if Blocks(failure) || throws.None? then failure else throws
  }

  function ProgressAfter(progress: map<Key, Progress>, failure: Option<Reason>, k: Key, throws: Option<Reason>):
      (after: map<Key, Progress>) {
    if Blocks(failure) then progress else progress[k := if throws.Some? then Rejected else Running]
  }

  function Coming(failure: Option<Reason>, k: Key, throws: Option<Reason>): (log: seq<Happening>) {
    [Comes(k, !Blocks(failure))] + if !Blocks(failure) && throws.Some? then [Fails(throws.value)] else []
  }

  class Resolution {
    const graph: Graph
    const plan: seq<Key>
    const locals: set<Key>
    const parentPromises: set<Key>

    var next: nat
    var wait: int
    var parentDone: bool
    var parentFailed: bool
    var failure: Option<Reason>
    var fulfilled: nat
    var progress: map<Key, Progress>
    var waitParams: map<Key, int>
    var callbacks: map<Key, multiset<Key>>
    ghost var started: seq<Key>
    ghost var finished: set<Key>
    ghost var log: seq<Happening>

    ghost predicate Valid()
      reads this
    {
      && IsPlan(graph, plan)
      && Published(plan, locals, next, progress, waitParams, callbacks)
      && Counted(plan, locals, next, progress, finished, wait, parentDone, fulfilled)
      && Started(graph, locals, progress, waitParams, callbacks, started)
      && Failures(progress, failure, parentFailed)
      && !(parentDone && parentFailed)
      && Recorded(log, failure, started)
    }

    /** A parameter of k has failed before k was invoked. */
    ghost predicate GivenUp(k: Key)
      reads this`progress, this`started
    {
      k in progress && progress[k] == Rejected && k !in started
    }

    /** done() */
    method CountDown()
      requires fulfilled == 0
      modifies this`wait, this`fulfilled
      ensures wait == old(wait) - 1 && fulfilled == if wait == 0 then 1 else 0
    {
      wait := wait - 1;
      if wait == 0 { fulfilled := fulfilled + 1; }
    }

    /** The parent's promise is fulfilled. */
    method ParentDone()
      requires Valid() && !parentDone && !parentFailed
      modifies this`parentDone, this`wait, this`fulfilled
      ensures Valid() && parentDone
    {
      hide Recorded, IsPlan, Started, Failures, Published, Counted;
      PlanNoDup(graph, plan);
      ParentCounted(plan, locals, next, progress, finished, wait, fulfilled);
      parentDone := true;
      CountDown();
    }

    /** fail, for the parent */
    method ParentFails(reason: Reason)
      requires Valid() && !parentDone && !parentFailed
      modifies this`parentFailed, this`failure, this`log
      ensures Valid() && failure == Some(reason) && parentFailed && log == old(log) + [Fails(reason)]
    {
      hide Recorded, IsPlan, Started, Published, Counted;
      RecordedFailure(log, failure, started, reason);
      parentFailed := true;
      failure, log := Some(reason), log + [Fails(reason)];
    }

    /** proceed: nothing is invoked after a failure that has a reason. The invocable may throw. */
    method Proceed(k: Key, throws: Option<Reason>)
      requires Valid() && k in progress && progress[k] == Waiting && waitParams[k] == 0
      modifies this`started, this`progress, this`failure, this`log
      ensures Valid()
      ensures started == if Blocks(old(failure)) then old(started) else old(started) + [k]
      ensures failure == FailureAfter(old(failure), throws)
              && progress == ProgressAfter(old(progress), old(failure), k, throws)
      ensures log == old(log) + Coming(old(failure), k, throws)
    {
      hide Recorded, IsPlan, Started, Counted, Failures, Published;
      RecordedInvoked(log, failure, started, k);
      log := log + [Comes(k, !Blocks(failure))];
      if failure.Some? && failure.value.Because? { return; }
      var p := if throws.Some? then Rejected else Running;
      CountedKept(plan, locals, next, progress, finished, wait, parentDone, fulfilled, k, p);
      StartedOne(graph, locals, progress, waitParams, callbacks, started, k, p);
      FailuresKept(progress, failure, parentFailed, k, p);
      RejectedFails(progress, k, throws, parentFailed);
      PublishedMoved(plan, locals, next, progress, waitParams, callbacks, k, p);
      started := started + [k];
      progress := progress[k := p];
      if throws.Some? {
        RecordedFailure(log, failure, started, throws.value);
        failure, log := throws, log + [Fails(throws.value)];
      }
    }

    /** A parameter's promise is fulfilled, and the callback that k has with it is called. */
    method ParamArrives(k: Key, d: Key, throws: Option<Reason>)
      requires Valid() && k in callbacks && d in callbacks[k] && (d != k && d in progress ==> Settled(progress[d]))
      requires k in waitParams
      modifies this`started, this`progress, this`failure, this`waitParams, this`callbacks, this`log
      ensures Valid()
      ensures waitParams == old(waitParams)[k := old(waitParams[k]) - 1]
      ensures callbacks == old(callbacks)[k := old(callbacks[k]) - multiset{d}]
      ensures started == if waitParams[k] == 0 && !Blocks(old(failure)) then old(started) + [k] else old(started)
      ensures waitParams[k] != 0 ==> failure == old(failure) && progress == old(progress) && log == old(log)
      ensures waitParams[k] == 0 ==>
                && old(progress[k]) == Waiting
                && failure == FailureAfter(old(failure), throws)
                && progress == ProgressAfter(old(progress), old(failure), k, throws)
                && log == old(log) + Coming(old(failure), k, throws)
    {
      hide Recorded, IsPlan, Started, Counted, Failures, Published, Settled;
      PublishedArrived(plan, locals, next, progress, waitParams, callbacks, k, waitParams[k] - 1,
                       callbacks[k] - multiset{d});
      Arrived(graph, locals, progress, waitParams, callbacks, started, k, d);
      waitParams := waitParams[k := waitParams[k] - 1];
      callbacks := callbacks[k := callbacks[k] - multiset{d}];
      if waitParams[k] == 0 {
        StartsWaiting(graph, locals, progress, waitParams, callbacks, started, k);
        Proceed(k, throws);
      }
    }

    /** A parameter's promise is rejected: onfailure of k. */
    method ParamFails(k: Key, d: Key, reason: Reason)
      requires Valid() && k in callbacks && d in callbacks[k]
      modifies this`progress, this`failure, this`callbacks, this`log
      ensures Valid() && failure == Some(reason) && progress == old(progress)[k := Rejected] && GivenUp(k)
      ensures callbacks == old(callbacks)[k := old(callbacks[k]) - multiset{d}] && log == old(log) + [Fails(reason)]
    {
      hide Recorded, IsPlan, Started, Counted, Failures, Published;
      var used := callbacks[k := callbacks[k] - multiset{d}];
      PublishedArrived(plan, locals, next, progress, waitParams, callbacks, k, 0, callbacks[k] - multiset{d});
      PublishedMoved(plan, locals, next, progress, waitParams, used, k, Rejected);
      FailedParam(graph, locals, progress, waitParams, callbacks, started, k, d);
      CountedKept(plan, locals, next, progress, finished, wait, parentDone, fulfilled, k, Rejected);
      Reject(k, reason);
      callbacks := used;
    }

    /** onfailure */
    method Reject(k: Key, reason: Reason)
      requires k in progress && Recorded(log, failure, started)
      modifies this`progress, this`failure, this`log
      ensures progress == old(progress)[k := Rejected] && failure == Some(reason) && log == old(log) + [Fails(reason)]
      ensures Recorded(log, failure, started) && Failures(progress, failure, parentFailed)
    {
      hide Recorded, Failures;
      RejectedFails(progress, k, Some(reason), parentFailed);
      RecordedFailure(log, failure, started, reason);
      progress, failure, log := progress[k := Rejected], Some(reason), log + [Fails(reason)];
    }

    /** The promise of an invocable that was started is settled. */
    method Settle(k: Key, ok: bool)
      requires Valid() && k in progress && progress[k] == Running
      modifies this`progress
      ensures Valid() && progress == old(progress)[k := if ok then Fulfilled else Failing]
    {
      hide Recorded, IsPlan, Started, Counted, Failures, Published;
      var p := if ok then Fulfilled else Failing;
      CountedKept(plan, locals, next, progress, finished, wait, parentDone, fulfilled, k, p);
      MovedOn(graph, locals, progress, waitParams, callbacks, started, k, p);
      PublishedMoved(plan, locals, next, progress, waitParams, callbacks, k, p);
      FailuresKept(progress, failure, parentFailed, k, p);
      progress := progress[k := p];
    }

    /** Its own callback: the value is kept, and done. */
    method OwnDone(k: Key)
      requires Valid() && k in progress && progress[k] == Fulfilled
      modifies this`progress, this`finished, this`wait, this`fulfilled
      ensures Valid() && progress == old(progress)[k := Finished]
      ensures wait == old(wait) - 1 && fulfilled == if wait == 0 then 1 else 0
    {
      hide Recorded, IsPlan, Started, Counted, Failures, Published;
      PlanNoDup(graph, plan);
      PublishedMoved(plan, locals, next, progress, waitParams, callbacks, k, Finished);
      CountedMore(plan, locals, next, progress, finished, wait, parentDone, fulfilled, k);
      MovedOn(graph, locals, progress, waitParams, callbacks, started, k, Finished);
      FailuresKept(progress, failure, parentFailed, k, Finished);
      progress, finished := progress[k := Finished], finished + {k};
      CountDown();
    }

    /** Its own callback: onfailure. */
    method OwnFails(k: Key, reason: Reason)
      requires Valid() && k in progress && progress[k] == Failing
      modifies this`progress, this`failure, this`log
      ensures Valid() && failure == Some(reason) && progress == old(progress)[k := Rejected]
      ensures log == old(log) + [Fails(reason)]
    {
      hide Recorded, IsPlan, Started, Counted, Failures, Published;
      PublishedMoved(plan, locals, next, progress, waitParams, callbacks, k, Rejected);
      CountedKept(plan, locals, next, progress, finished, wait, parentDone, fulfilled, k, Rejected);
      MovedOn(graph, locals, progress, waitParams, callbacks, started, k, Rejected);
      Reject(k, reason);
    }

    /** One round of the loop over the plan: a local counts as done, anything else is invoked when nothing has to
        be waited for. */
    method Next(throws: Option<Reason>)
      requires Valid() && next < |plan|
      modifies this
      ensures Valid() && next == old(next) + 1
      ensures parentDone == old(parentDone) && parentFailed == old(parentFailed)
      ensures var k := plan[old(next)]; var list := Waits(graph, locals, parentPromises + old(progress.Keys), k);
              if k in locals then
                && wait == old(wait) - 1 && progress == old(progress) && waitParams == old(waitParams)
                && callbacks == old(callbacks) && started == old(started) && failure == old(failure) && log == old(log)
              else && waitParams == old(waitParams)[k := |list|] && callbacks == old(callbacks)[k := multiset(list)]
                   && started == (if list == [] && !Blocks(old(failure)) then old(started) + [k] else old(started))
                   && failure == (if list == [] then FailureAfter(old(failure), throws) else old(failure))
                   && progress == old(progress)[k := if list != [] || Blocks(old(failure)) then Waiting
                                                     else if throws.Some? then Rejected else Running]
                   && log == old(log) + if list == [] then Coming(old(failure), k, throws) else []
    {
      hide Recorded, IsPlan, Started, Counted, Failures, Published, NoDup, Depends, Awaited;
      var k := plan[next];
      PlanNoDup(graph, plan);
      if k in locals {
        CountedLocal(plan, locals, next, progress, finished, wait, parentDone, fulfilled);
        PublishedLocal(plan, locals, next, progress, waitParams, callbacks);
        next, finished := next + 1, finished + {k};
        CountDown();
      } else {
        Invoke(throws);
      }
    }

    /** invoke, for the next in the plan */
    method Invoke(throws: Option<Reason>)
      requires Valid() && next < |plan| && plan[next] !in locals
      modifies this
      ensures Valid() && next == old(next) + 1
      ensures parentDone == old(parentDone) && parentFailed == old(parentFailed)
      ensures var k := plan[old(next)]; var list := Waits(graph, locals, parentPromises + old(progress.Keys), k);
              && waitParams == old(waitParams)[k := |list|] && callbacks == old(callbacks)[k := multiset(list)]
              && started == (if list == [] && !Blocks(old(failure)) then old(started) + [k] else old(started))
              && failure == (if list == [] then FailureAfter(old(failure), throws) else old(failure))
              && progress == old(progress)[k := if list != [] || Blocks(old(failure)) then Waiting
                                                else if throws.Some? then Rejected else Running]
              && log == old(log) + if list == [] then Coming(old(failure), k, throws) else []
    {
      hide Recorded, IsPlan, Started, Counted, Failures, Published, NoDup, Depends, Awaited;
      var k := plan[next];
      PlanNoDup(graph, plan);
      var n, list := CountParams(k);
      PublishedNext(plan, locals, next, progress, waitParams, callbacks, n, multiset(list));
      forall d | Depends(graph, k, d) && d !in locals ensures d in progress && d in list {
        HasPromises(plan, locals, next, progress, waitParams, callbacks);
        DependenciesAwaited(graph, plan, locals, parentPromises + progress.Keys, next, d);
      }
      StartedNext(graph, locals, progress, waitParams, callbacks, started, k, list);
      CountedNext(plan, locals, next, progress, finished, wait, parentDone, fulfilled);
      FailuresNew(progress, failure, parentFailed, k);
      next := next + 1;
      progress := progress[k := Waiting];
      waitParams := waitParams[k := n];
      callbacks := callbacks[k := multiset(list)];
      if n == 0 { Proceed(k, throws); }
    }

    /** The loop that registers callbacks: with the parameters that have a promise and no local. */
    method CountParams(k: Key) returns (n: nat, list: seq<Key>)
      requires k in graph
      ensures list == Awaited(Params(graph[k]), parentPromises + progress.Keys, locals) && n == |list|
    {
      var params, i := Params(graph[k]), 0;
      n, list := 0, [];
      assert params[..|params|] == params;
      while i < |params|
        invariant 0 <= i <= |params| && n == |list|
        invariant list == Awaited(params[..i], parentPromises + progress.Keys, locals)
      {
        assert params[..i + 1][..i] == params[..i];
        if (params[i] in parentPromises || params[i] in progress) && params[i] !in locals {
          n, list := n + 1, list + [params[i]];
        }
        i := i + 1;
      }
    }

    /** The call of the function itself. Nothing is done if the parent has failed already. */
    constructor (graph: Graph, plan: seq<Key>, locals: set<Key>, parent: Parent, throws: map<Key, Reason>)
      requires IsPlan(graph, plan)
      ensures Valid() && this.graph == graph && this.plan == plan && this.locals == locals
      ensures if parent.Failed? then failure == Some(parent.reason) && started == [] else next == |plan|
      ensures parentDone == parent.Ready? && parentFailed == parent.Failed?
      ensures parentPromises == if parent.Pending? then parent.promises else {}
      ensures !parent.Failed? && throws == map[] ==>
                failure == None && Begun(graph, plan, locals, parentPromises, next, progress, waitParams, callbacks)
    {
      this.graph, this.plan, this.locals := graph, plan, locals;
      parentPromises := if parent.Pending? then parent.promises else {};
      next, wait, parentDone, parentFailed, failure, fulfilled := 0, 1 + |plan|, false, false, None, 0;
      progress, waitParams, callbacks, started, finished, log := map[], map[], map[], [], {}, [];
      new;
      Begin(parent, throws);
    }

    method Begin(parent: Parent, throws: map<Key, Reason>)
      requires Valid() && next == 0 && !parentDone && !parentFailed && failure == None && started == []
      modifies this
      ensures Valid()
      ensures if parent.Failed? then failure == Some(parent.reason) && started == [] else next == |plan|
      ensures parentDone == parent.Ready? && parentFailed == parent.Failed?
      ensures !parent.Failed? && throws == map[] ==>
                failure == None && Begun(graph, plan, locals, parentPromises, next, progress, waitParams, callbacks)
    {
      hide Valid;
      if parent.Failed? {
        ParentFails(parent.reason);
      } else {
        if parent.Ready? { ParentDone(); }
        NextInPlan();
        while next < |plan|
          invariant Valid() && next <= |plan| && parentDone == parent.Ready? && !parentFailed
          invariant throws == map[] ==>
                      failure == None && Begun(graph, plan, locals, parentPromises, next, progress, waitParams,
                          callbacks)
          decreases |plan| - next
        {
          NextBegun(throws);
        }
      }
    }

    lemma {:induction false} NextInPlan()
      requires Valid()
      ensures next <= |plan|
    {
    }

    method NextBegun(throws: map<Key, Reason>)
      requires Valid() && next < |plan|
      requires throws == map[] ==>
                 failure == None && Begun(graph, plan, locals, parentPromises, next, progress, waitParams, callbacks)
      modifies this
      ensures Valid() && next == old(next) + 1
      ensures parentDone == old(parentDone) && parentFailed == old(parentFailed)
      ensures throws == map[] ==>
                failure == None && Begun(graph, plan, locals, parentPromises, next, progress, waitParams, callbacks)
    {
      hide Recorded, IsPlan, Started, Counted, Failures, Published, NoDup, Begun, Waits;
      PlanNoDup(graph, plan);
      var k := plan[next];
      if throws == map[] {
        if k in locals {
          BegunLocal(graph, plan, locals, parentPromises, next, progress, waitParams, callbacks);
        } else {
          BegunNext(graph, plan, locals, parentPromises, next, progress, waitParams, callbacks,
                    Waits(graph, locals, parentPromises + progress.Keys, k));
        }
      }
      Next(if k in throws then Some(throws[k]) else None);
    }

    // ----- what holds at all times -----

    /** It is fulfilled at most once, and exactly when the parent is done and so is every invocable that no local
        replaces; then nothing has failed. */
    lemma {:induction false} FulfilledOnce()
      requires Valid() && next == |plan|
      ensures fulfilled <= 1
      ensures fulfilled == 1 <==>
              parentDone && forall k :: k in plan && k !in locals ==> k in progress && progress[k] == Finished
      ensures fulfilled == 1 ==> failure == None
    {
      PlanNoDup(graph, plan);
      hide IsPlan, Started, NoDup;
      assert plan[..next] == plan;
      assert forall k :: k in finished ==> k in plan;
      AtMostAll(plan, finished);
      if parentDone && forall k :: k in plan && k !in locals ==> k in progress && progress[k] == Finished {
        AllFinished(plan, finished);
      }
    }

    /** No invocable is started twice, and none before the invocables that it depends on are fulfilled. */
    lemma {:induction false} DependenciesFirst(k: Key, d: Key)
      requires Valid() && k in started && Depends(graph, k, d) && d !in locals
      ensures NoDup(started) && d in progress && Settled(progress[d])
    {
      assert ParamsAwaited(graph, locals, k, progress, waitParams[k], callbacks[k], started);
    }
  }

  lemma {:induction false} StartsWaiting(graph: Graph, locals: set<Key>, progress: map<Key, Progress>,
                                         waitParams: map<Key, int>, callbacks: map<Key, multiset<Key>>,
                                         started: seq<Key>, k: Key)
    requires Started(graph, locals, progress, waitParams, callbacks, started)
    requires k in progress && k !in started && waitParams[k] == 0
    ensures progress[k] == Waiting
  {
    assert ParamsAwaited(graph, locals, k, progress, waitParams[k], callbacks[k], started);
  }

  lemma {:induction false} PlanNoDup(g: Graph, plan: seq<Key>)
    requires IsPlan(g, plan)
    ensures NoDup(plan) && forall i :: 0 <= i < |plan| ==> plan[i] in g
  {
  }

  lemma {:induction false} NextIs(plan: seq<Key>, next: nat)
    requires NoDup(plan) && next < |plan|
    ensures plan[next] !in plan[..next] && plan[..next + 1] == plan[..next] + [plan[next]]
  {
  }

  /** The next invocable is replaced by a local. */
  lemma {:induction false} CountedLocal(plan: seq<Key>, locals: set<Key>, next: nat, progress: map<Key, Progress>,
                                        finished: set<Key>, wait: int, parentDone: bool, fulfilled: nat)
    requires Counted(plan, locals, next, progress, finished, wait, parentDone, fulfilled) && NoDup(plan)
    requires next < |plan| && plan[next] in locals
    ensures fulfilled == 0
    ensures Counted(plan, locals, next + 1, progress, finished + {plan[next]}, wait - 1, parentDone,
                    if wait == 1 then 1 else 0)
  {
    NextIs(plan, next);
    Unfinished(plan, finished, plan[next]);
  }

  lemma {:induction false} ParentCounted(plan: seq<Key>, locals: set<Key>, next: nat, progress: map<Key, Progress>,
                                         finished: set<Key>, wait: int, fulfilled: nat)
    requires Counted(plan, locals, next, progress, finished, wait, false, fulfilled) && NoDup(plan)
    ensures fulfilled == 0
    ensures Counted(plan, locals, next, progress, finished, wait - 1, true, if wait == 1 then 1 else 0)
  {
    AtMostAll(plan, finished);
  }

  lemma {:induction false} PublishedMoved(plan: seq<Key>, locals: set<Key>, next: nat, progress: map<Key, Progress>,
                                          waitParams: map<Key, int>, callbacks: map<Key, multiset<Key>>, k: Key,
                                          p: Progress)
    requires Published(plan, locals, next, progress, waitParams, callbacks) && k in progress
    ensures Published(plan, locals, next, progress[k := p], waitParams, callbacks)
    ensures k in plan[..next] && k !in locals && k in waitParams && k in callbacks
  {
  }

  lemma {:induction false} PublishedArrived(plan: seq<Key>, locals: set<Key>, next: nat, progress: map<Key, Progress>,
                                            waitParams: map<Key, int>, callbacks: map<Key, multiset<Key>>, k: Key,
                                            w: int, c: multiset<Key>)
    requires Published(plan, locals, next, progress, waitParams, callbacks) && k in callbacks
    ensures Published(plan, locals, next, progress, waitParams[k := w], callbacks[k := c])
    ensures Published(plan, locals, next, progress, waitParams, callbacks[k := c])
    ensures k in progress && k in waitParams
  {
  }

  lemma {:induction false} RejectedFails(progress: map<Key, Progress>, k: Key, failure: Option<Reason>,
                                         parentFailed: bool)
    ensures Failures(progress[k := Rejected], failure, parentFailed)
  {
    assert progress[k := Rejected][k] == Rejected;
  }

  lemma {:induction false} FailuresNew(progress: map<Key, Progress>, failure: Option<Reason>, parentFailed: bool,
                                       k: Key)
    requires Failures(progress, failure, parentFailed) && k !in progress
    ensures Failures(progress[k := Waiting], failure, parentFailed)
  {
    if failure.Some? && !parentFailed {
      var x :| x in progress && progress[x] == Rejected;
      assert progress[k := Waiting][x] == Rejected;
    }
  }

  lemma {:induction false} PublishedLocal(plan: seq<Key>, locals: set<Key>, next: nat, progress: map<Key, Progress>,
                                          waitParams: map<Key, int>, callbacks: map<Key, multiset<Key>>)
    requires Published(plan, locals, next, progress, waitParams, callbacks) && next < |plan| && plan[next] in locals
    ensures Published(plan, locals, next + 1, progress, waitParams, callbacks)
  {
    assert plan[..next + 1] == plan[..next] + [plan[next]];
  }

  lemma {:induction false} CountedNext(plan: seq<Key>, locals: set<Key>, next: nat, progress: map<Key, Progress>,
                                       finished: set<Key>, wait: int, parentDone: bool, fulfilled: nat)
    requires Counted(plan, locals, next, progress, finished, wait, parentDone, fulfilled) && NoDup(plan)
    requires next < |plan| && plan[next] !in locals && plan[next] !in progress
    ensures Counted(plan, locals, next + 1, progress[plan[next] := Waiting], finished, wait, parentDone, fulfilled)
  {
    NextIs(plan, next);
    hide NoDup;
  }

  lemma {:induction false} HasPromises(plan: seq<Key>, locals: set<Key>, next: nat, progress: map<Key, Progress>,
                                       waitParams: map<Key, int>, callbacks: map<Key, multiset<Key>>)
    requires Published(plan, locals, next, progress, waitParams, callbacks)
    ensures forall k :: k in plan[..next] && k !in locals ==> k in progress
  {
  }

  lemma {:induction false} AllFinished(plan: seq<Key>, finished: set<Key>)
    requires NoDup(plan) && (forall k :: k in finished <==> k in plan)
    ensures |finished| == |plan|
  {
    Size(plan);
    assert finished == set k | k in plan;
  }

  lemma {:induction false} PublishedNext(plan: seq<Key>, locals: set<Key>, next: nat, progress: map<Key, Progress>,
                                         waitParams: map<Key, int>, callbacks: map<Key, multiset<Key>>, w: int,
                                         c: multiset<Key>)
    requires NoDup(plan) && Published(plan, locals, next, progress, waitParams, callbacks)
    requires next < |plan| && plan[next] !in locals
    ensures plan[next] !in progress
    ensures Published(plan, locals, next + 1, progress[plan[next] := Waiting], waitParams[plan[next] := w],
                      callbacks[plan[next] := c])
  {
    NextIs(plan, next);
    hide NoDup;
  }

  /** All that the next invocable depends on has a promise already, so that it is waited for. */
  lemma {:induction false} DependenciesAwaited(graph: Graph, plan: seq<Key>, locals: set<Key>, promises: set<Key>,
                                               next: nat, d: Key)
    requires IsPlan(graph, plan) && next < |plan| && Depends(graph, plan[next], d) && d !in locals
    requires forall k :: k in plan[..next] && k !in locals ==> k in promises
    ensures d in plan[..next] && d in Awaited(Params(graph[plan[next]]), promises, locals)
  {
    AwaitedHas(Params(graph[plan[next]]), promises, locals, d);
  }

  lemma {:induction false} StartedNext(graph: Graph, locals: set<Key>, progress: map<Key, Progress>,
                                       waitParams: map<Key, int>, callbacks: map<Key, multiset<Key>>, started: seq<Key>,
                                       k: Key, list: seq<Key>)
    requires Started(graph, locals, progress, waitParams, callbacks, started) && k !in progress
    requires forall d :: Depends(graph, k, d) && d !in locals ==> d in progress && d in list
    ensures Started(graph, locals, progress[k := Waiting], waitParams[k := |list|], callbacks[k := multiset(list)],
            started)
  {
    hide Depends, NoDup;
    var progress' := progress[k := Waiting];
    forall x | x in progress ensures ParamsAwaited(graph, locals, x, progress', waitParams[x], callbacks[x], started) {
      StillAwaited(graph, locals, x, progress, waitParams[x], callbacks[x], started, k);
    }
    assert k !in started;
    AwaitsAll(graph, locals, k, progress', list, started);
    hide ParamsAwaited;
    assert waitParams[k := |list|].Keys == waitParams.Keys + {k};
    assert callbacks[k := multiset(list)].Keys == callbacks.Keys + {k};
  }

  lemma {:induction false} AwaitsAll(graph: Graph, locals: set<Key>, k: Key, progress: map<Key, Progress>,
                                     list: seq<Key>, started: seq<Key>)
    requires k in progress && progress[k] == Waiting && k !in started
    requires forall d :: Depends(graph, k, d) && d !in locals ==> d in progress && d in list
    ensures ParamsAwaited(graph, locals, k, progress, |list|, multiset(list), started)
  {
  }

  lemma {:induction false} StillAwaited(graph: Graph, locals: set<Key>, x: Key, progress: map<Key, Progress>, wait: int,
                                        callbacks: multiset<Key>, started: seq<Key>, k: Key)
    requires x in progress && ParamsAwaited(graph, locals, x, progress, wait, callbacks, started) && k !in progress
    ensures ParamsAwaited(graph, locals, x, progress[k := Waiting], wait, callbacks, started)
  {
  }

  lemma {:induction false} FailuresKept(progress: map<Key, Progress>, failure: Option<Reason>, parentFailed: bool,
                                        k: Key, p: Progress)
    requires Failures(progress, failure, parentFailed) && k in progress && progress[k] != Rejected
    ensures Failures(progress[k := p], failure, parentFailed)
  {
    if failure.Some? && !parentFailed {
      var x :| x in progress && progress[x] == Rejected;
      assert progress[k := p][x] == Rejected;
    }
  }

  // ----- over all runs -----

  /** What may happen once the function has returned. */
  datatype Event = ParentFulfilled | ParentRejected(reason: Reason)
                 | ParamFulfilled(key: Key, param: Key, throws: Option<Reason>)
                 | ParamRejected(key: Key, param: Key, reason: Reason)
                 | Settles(key: Key, ok: bool) | OwnFulfilled(key: Key) | OwnRejected(key: Key, reason: Reason)

  /** Promises are settled once, and their callbacks called once after that. */
  predicate Possible(e: Event, progress: map<Key, Progress>, callbacks: map<Key, multiset<Key>>, parentSettled: bool) {
    match e
    case ParentFulfilled => !parentSettled
    case ParentRejected(_) => !parentSettled
    case ParamFulfilled(k, d, _) =>
      k in callbacks && d in callbacks[k] && (d != k && d in progress ==> Settled(progress[d]))
    case ParamRejected(k, d, _) =>
      k in callbacks && d in callbacks[k]
      && (d != k && d in progress ==> progress[d] == Failing || progress[d] == Rejected)
    case Settles(k, _) => k in progress && progress[k] == Running
    case OwnFulfilled(k) => k in progress && progress[k] == Fulfilled
    case OwnRejected(k, _) => k in progress && progress[k] == Failing
  }

  method Happens(r: Resolution, e: Event)
    requires r.Valid() && Possible(e, r.progress, r.callbacks, r.parentDone || r.parentFailed)
    requires r.waitParams.Keys == r.callbacks.Keys
    modifies r
    ensures r.Valid() && old(r.log) <= r.log && r.next == old(r.next)
    ensures forall k: Key :: old(r.GivenUp(k)) ==> r.GivenUp(k)
  {
    hide r.Valid, FailureAfter, Settled;
    match e {
      case ParentFulfilled => r.ParentDone();
      case ParentRejected(reason) => r.ParentFails(reason);
      case ParamFulfilled(k, d, throws) => r.ParamArrives(k, d, throws);
      case ParamRejected(k, d, reason) => r.ParamFails(k, d, reason);
      case Settles(k, ok) => r.Settle(k, ok);
      case OwnFulfilled(k) => r.OwnDone(k);
      case OwnRejected(k, reason) => r.OwnFails(k, reason);
    }
  }

  /** Whatever happens in whatever order: nothing is invoked that was given up; an invocable is invoked after a
      failure with a reason exactly if a failure without one is on record when it comes to be; and if all failures
      have reasons nothing is invoked after the first. */
  method Run(r: Resolution, events: seq<Event>)
    requires r.Valid()
    modifies r
    ensures r.Valid() && old(r.log) <= r.log
    ensures forall k: Key :: old(r.GivenUp(k)) ==> r.GivenUp(k)
    ensures InvokedAfterReason(r.log) <==> exists i, j :: TakesOver(r.log, i, j)
    ensures OnlyReasons(r.log) ==> forall i, j :: !InvokedAfter(r.log, i, j)
  {
    var n := 0;
    while n < |events|
      invariant 0 <= n <= |events| && r.Valid() && old(r.log) <= r.log
      invariant forall k: Key :: old(r.GivenUp(k)) ==> r.GivenUp(k)
    {
      assert r.waitParams.Keys == r.callbacks.Keys;
      hide r.Valid, Possible;
      if Possible(events[n], r.progress, r.callbacks, r.parentDone || r.parentFailed) { Happens(r, events[n]); }
      n := n + 1;
    }
    InvokedAfterReasonExactly(r.log, r.failure, r.started);
    forall i, j | OnlyReasons(r.log) ensures !InvokedAfter(r.log, i, j) {
      NothingAfterFailure(r.log, r.failure, r.started, i, j);
    }
  }

  /** A run in which the check does not hold back an invocable: a failure with a reason, one without, and then the
      third invocable is invoked, which has waited for a promise of the parent. */
  method StartsAfterFailure() returns (r: Resolution, ghost n: nat)
    ensures r.Valid() && n <= |r.log| && r.log[n..] == [Fails(Because(1)), Fails(Undefined), Comes("c", true)]
    ensures "c" in r.started && InvokedAfterReason(r.log)
  {
    hide *;
    r := Example();
    n := |r.log|;
    FailsOnItsOwn(r, "a", Because(1));
    FailsOnItsOwn(r, "b", Undefined);
    LastParam(r, "c", "p");
    ThirdInvoked(r.log, n);
  }

  lemma {:induction false} ThirdInvoked(log: seq<Happening>, n: nat)
    requires n <= |log| && log[n..] == [Fails(Because(1)), Fails(Undefined), Comes("c", true)]
    ensures InvokedAfterReason(log)
  {
    assert log[n] == log[n..][0] && log[n + 2] == log[n..][2];
    assert InvokedAfter(log, n, n + 2);
  }

  method LastParam(r: Resolution, k: Key, d: Key)
    requires r.Valid() && r.failure == Some(Undefined) && d !in r.progress
    requires k in r.callbacks && k in r.waitParams && d in r.callbacks[k] && r.waitParams[k] == 1
    modifies r
    ensures r.Valid() && r.log == old(r.log) + [Comes(k, true)] && k in r.started
  {
    hide r.Valid;
    r.ParamArrives(k, d, None);
  }

  method FailsOnItsOwn(r: Resolution, k: Key, reason: Reason)
    requires r.Valid() && k in r.progress && r.progress[k] == Running
    modifies r`progress, r`failure, r`log
    ensures r.Valid() && r.failure == Some(reason) && r.progress == old(r.progress)[k := Rejected]
    ensures r.log == old(r.log) + [Fails(reason)]
  {
    hide r.Valid;
    r.Settle(k, false);
    r.OwnFails(k, reason);
  }

  method Example() returns (r: Resolution)
    ensures fresh(r) && r.Valid() && "a" in r.progress && "b" in r.progress && "c" in r.progress && "p" !in r.progress
    ensures r.progress["a"] == Running && r.progress["b"] == Running
    ensures "c" in r.waitParams && "c" in r.callbacks && r.waitParams["c"] == 1 && "p" in r.callbacks["c"]
  {
    hide Recorded, IsPlan, Started, Counted, Failures, Published, Begun;
    ExamplePlan();
    r := new Resolution(ExampleGraph(), ["a", "b", "c"], {}, Pending({"p"}), map[]);
    ExampleBegun(r.progress, r.waitParams, r.callbacks);
    OnlyPlanned(r.plan, r.locals, r.next, r.progress, r.waitParams, r.callbacks, "p");
  }

  lemma {:induction false} OnlyPlanned(plan: seq<Key>, locals: set<Key>, next: nat, progress: map<Key, Progress>,
                                       waitParams: map<Key, int>, callbacks: map<Key, multiset<Key>>, k: Key)
    requires Published(plan, locals, next, progress, waitParams, callbacks) && k !in plan
    ensures k !in progress
  {
  }

  function ExampleGraph(): Graph {
    map["a" := Invocable([]), "b" := Invocable([]), "c" := Invocable(["p"])]
  }

  lemma {:induction false} ExamplePlan()
    ensures IsPlan(ExampleGraph(), ["a", "b", "c"])
  {
  }

  lemma {:induction false} ExampleBegun(progress: map<Key, Progress>, waitParams: map<Key, int>,
                                        callbacks: map<Key, multiset<Key>>)
    requires Begun(ExampleGraph(), ["a", "b", "c"], {}, {"p"}, 3, progress, waitParams, callbacks)
    ensures "a" in progress && "b" in progress && "c" in progress && "c" in waitParams && "c" in callbacks
    ensures progress["a"] == Running && progress["b"] == Running && progress["c"] == Waiting
    ensures waitParams["c"] == 1 && callbacks["c"] == multiset{"p"}
  {
    var g, plan := ExampleGraph(), ["a", "b", "c"];
    assert BegunAt(g, plan, {}, {"p"}, 0, progress, waitParams, callbacks);
    assert BegunAt(g, plan, {}, {"p"}, 1, progress, waitParams, callbacks);
    assert BegunAt(g, plan, {}, {"p"}, 2, progress, waitParams, callbacks);
    forall promises: set<Key> | "p" in promises ensures Awaited(["p"], promises, {}) == ["p"] {
      assert ["p"][..0] == [];
      assert Awaited(["p"], promises, {}) == Awaited([], promises, {}) + ["p"];
    }
  }
}
