/** The planner of ui-router's $resolve: an order of the invocables in which dependencies come first. */
module Study {
  type Key = string

  /** A service to look up, or a function with the parameters that it is annotated with. */
  datatype Value = Service(name: string) | Invocable(params: seq<Key>)

  type Graph = map<Key, Value>

  function Params(v: Value): seq<Key> {
    if v.Service? then [] else v.params
  }

  /** Key k depends on d: a parameter other than itself that is one of the invocables. */
  predicate Depends(g: Graph, k: Key, d: Key) {
    k in g && d in g && d != k && d in Params(g[k])
  }

  ghost predicate IsPath(g: Graph, p: seq<Key>) {
    forall i :: 0 < i < |p| ==> Depends(g, p[i - 1], p[i])
  }

  /** A cycle of dependencies, with its first key again at the end. */
  ghost predicate IsCycle(g: Graph, p: seq<Key>) {
    |p| >= 2 && p[0] == p[|p| - 1] && IsPath(g, p)
  }

  predicate NoDup(s: seq<Key>) {
    forall i, j :: 0 <= i < j < |s| ==> s[i] != s[j]
  }

  /** Each key comes once, and after all that it depends on. */
  ghost predicate Ordered(g: Graph, plan: seq<Key>) {
    && NoDup(plan)
    && (forall i :: 0 <= i < |plan| ==> plan[i] in g)
    && (forall i, d :: 0 <= i < |plan| && Depends(g, plan[i], d) ==> d in plan[..i])
  }

  /** A plan with every invocable. */
  ghost predicate IsPlan(g: Graph, plan: seq<Key>) {
    Ordered(g, plan) && forall k <- g :: k in plan
  }

  function Index(plan: seq<Key>, k: Key): (i: nat)
    requires k in plan
    ensures i < |plan| && plan[i] == k
  {
    if plan[0] == k then 0 else 1 + Index(plan[1..], k)
  }

  lemma {:induction false} Earlier(g: Graph, plan: seq<Key>, k: Key, d: Key)
    requires IsPlan(g, plan) && Depends(g, k, d)
    ensures Index(plan, d) < Index(plan, k)
  {
    var i := Index(plan, k);
    assert d in plan[..i];
    var j :| 0 <= j < i && plan[j] == d;
    assert Index(plan, d) == j;
  }

  lemma {:induction false} PathDescends(g: Graph, plan: seq<Key>, p: seq<Key>)
    requires IsPlan(g, plan) && IsPath(g, p) && |p| >= 2
    ensures p[0] in plan && p[|p| - 1] in plan && Index(plan, p[|p| - 1]) < Index(plan, p[0])
    decreases |p|
  {
    hide Index, Depends;
    var n := |p| - 1;
    assert Depends(g, p[n - 1], p[n]);
    DependsIn(g, p[n - 1], p[n]);
    Earlier(g, plan, p[n - 1], p[n]);
    if |p| > 2 { PathDescends(g, plan, p[..n]); }
  }

  lemma {:induction false} DependsIn(g: Graph, k: Key, d: Key)
    requires Depends(g, k, d)
    ensures k in g && d in g
  {
  }

  /** Where there is a plan, there is no cycle. */
  lemma {:induction false} PlanIsAcyclic(g: Graph, plan: seq<Key>, p: seq<Key>)
    requires IsPlan(g, plan)
    ensures !IsCycle(g, p)
  {
    if IsCycle(g, p) { PathDescends(g, plan, p); }
  }

  /** cycle.splice(0, cycle.indexOf(key)) on the path to a key that is on it already. */
  lemma {:induction false} CycleFound(g: Graph, cycle: seq<Key>, key: Key)
    requires IsPath(g, cycle) && key in cycle && Depends(g, cycle[|cycle| - 1], key)
    ensures IsCycle(g, (cycle + [key])[Index(cycle + [key], key)..])
  {
    var path := cycle + [key];
    var at := Index(path, key);
    PathGrows(g, cycle, key);
    FirstIndex(cycle, key, [key]);
    assert forall i :: at < i < |path| ==> Depends(g, path[i - 1], path[i]);
  }

  lemma {:induction false} FirstIndex(s: seq<Key>, k: Key, t: seq<Key>)
    requires k in s
    ensures k in s + t && Index(s + t, k) == Index(s, k)
    decreases |s|
  {
    if s[0] != k {
      assert (s + t)[1..] == s[1..] + t;
      FirstIndex(s[1..], k, t);
    }
  }

  lemma {:induction false} PathGrows(g: Graph, cycle: seq<Key>, key: Key)
    requires IsPath(g, cycle) && (cycle != [] ==> Depends(g, cycle[|cycle| - 1], key))
    ensures IsPath(g, cycle + [key])
  {
  }

  lemma {:induction false} PlanGrows(g: Graph, plan: seq<Key>, key: Key)
    requires Ordered(g, plan) && key in g && key !in plan && forall d :: Depends(g, key, d) ==> d in plan
    ensures Ordered(g, plan + [key])
  {
    var longer := plan + [key];
    forall i, d | 0 <= i < |longer| && Depends(g, longer[i], d) ensures d in longer[..i] {
      assert longer[..i] == plan[..i];
    }
  }

  datatype Mark = InProgress | Done

  datatype Option<T> = None | Some(value: T)

  class Planner {
    const invocables: Graph
    var plan: seq<Key>
    var cycle: seq<Key>
    var visited: map<Key, Mark>

    constructor (invocables: Graph)
      ensures Valid() && this.invocables == invocables && plan == [] && cycle == []
    {
      this.invocables, plan, cycle, visited := invocables, [], [], map[];
    }

    ghost predicate Valid()
      reads this
    {
      && Ordered(invocables, plan) && IsPath(invocables, cycle) && NoDup(cycle)
      && (forall k :: k in cycle ==> k in invocables)
      && (forall k :: k in visited && visited[k] == Done <==> k in plan)
      && (forall k :: k in visited && visited[k] == InProgress <==> k in cycle)
    }

    /** How many invocables are not yet visited. */
    ghost function Left(): nat
      reads this
    {
      |set k | k in invocables && k !in visited|
    }

    /** visit. The path in the message of the error, if there is one. */
    method Visit(key: Key) returns (error: Option<seq<Key>>)
      requires Valid() && key in invocables
      requires cycle != [] ==> Depends(invocables, cycle[|cycle| - 1], key)
      modifies this
      ensures error.Some? ==> IsCycle(invocables, error.value)
      ensures error.None? ==> Valid() && cycle == old(cycle) && key in plan && old(plan) <= plan
      ensures error.None? ==> forall k :: k in old(visited) ==> k in visited
      decreases Left(), 0
    {
      hide Ordered, Depends, IsCycle, IsPath;
      if key in visited && visited[key] == Done { return None; }
      if key in visited {
        var path := cycle + [key];
        var at := Index(path, key);
        CycleFound(invocables, cycle, key);
        return Some(path[at..]);
      }
      Enter(key);
      error := VisitParams(key, Params(invocables[key]));
      if error.Some? { return; }
      Leave(key);
    }

    method Enter(key: Key)
      requires Valid() && key in invocables && key !in visited
      requires cycle != [] ==> Depends(invocables, cycle[|cycle| - 1], key)
      modifies this`cycle, this`visited
      ensures Valid() && cycle == old(cycle) + [key] && Left() < old(Left())
      ensures forall k :: k in old(visited) ==> k in visited
    {
      hide Ordered, Depends;
      PathGrows(invocables, cycle, key);
      assert (set k | k in invocables && k !in visited[key := InProgress]) ==
             (set k | k in invocables && k !in visited) - {key};
      cycle := cycle + [key];
      visited := visited[key := InProgress];
    }

    method Leave(key: Key)
      requires Valid() && cycle != [] && cycle[|cycle| - 1] == key
      requires forall d :: Depends(invocables, key, d) ==> d in plan
      modifies this`plan, this`cycle, this`visited
      ensures Valid() && cycle == old(cycle)[..|old(cycle)| - 1] && plan == old(plan) + [key]
      ensures forall k :: k in old(visited) ==> k in visited
    {
      hide Ordered, Depends;
      PlanGrows(invocables, plan, key);
      plan := plan + [key];
      assert key !in cycle[..|cycle| - 1];
      cycle := cycle[..|cycle| - 1];
      visited := visited[key := Done];
    }

    /** The loop over the parameters of key, which is at the end of the path. */
    method VisitParams(key: Key, params: seq<Key>) returns (error: Option<seq<Key>>)
      requires Valid() && cycle != [] && cycle[|cycle| - 1] == key && params == Params(invocables[key])
      modifies this
      ensures error.Some? ==> IsCycle(invocables, error.value)
      ensures error.None? ==> Valid() && cycle == old(cycle) && old(plan) <= plan
      ensures error.None? ==> forall d :: Depends(invocables, key, d) ==> d in plan
      ensures error.None? ==> forall k :: k in old(visited) ==> k in visited
      decreases Left(), 1
    {
      error := None;
      var i := 0;
      while i < |params|
        invariant 0 <= i <= |params| && error == None && Valid() && cycle == old(cycle) && old(plan) <= plan
        invariant forall d :: d in params[..i] && Depends(invocables, key, d) ==> d in plan
        invariant forall k :: k in old(visited) ==> k in visited
        invariant Left() <= old(Left())
      {
        var param := params[i];
        if param != key && param in invocables {
          label Before:
          error := Visit(param);
          if error.Some? { return; }
          LeftShrinks@Before();
        }
        i := i + 1;
      }
    }

    twostate lemma {:induction false} LeftShrinks()
      requires forall k :: k in old(visited) ==> k in visited
      ensures Left() <= old(Left())
    {
      Subset(set k | k in invocables && k !in visited, old(set k | k in invocables && k !in visited));
    }
  }

  /** A plan, or the keys of the cycle that the error names. */
  datatype Studied = Planned(plan: seq<Key>) | Cyclic(path: seq<Key>)

  /** study: forEach over the invocables, in whatever order they are listed. It throws exactly if there is a
      cycle, and the cycle that it names is one. */
  method Study(invocables: Graph, listing: seq<Key>) returns (r: Studied)
    requires forall k :: k in listing <==> k in invocables
    ensures r.Planned? ==> IsPlan(invocables, r.plan)
    ensures r.Cyclic? ==> IsCycle(invocables, r.path)
    ensures r.Cyclic? <==> exists p :: IsCycle(invocables, p)
  {
    var planner := new Planner(invocables);
    var i := 0;
    while i < |listing|
      invariant 0 <= i <= |listing| && planner.Valid() && planner.cycle == []
      invariant forall k :: k in listing[..i] ==> k in planner.plan
    {
      var error := planner.Visit(listing[i]);
      if error.Some? { return Cyclic(error.value); }
      i := i + 1;
    }
    forall p ensures !IsCycle(invocables, p) {
      PlanIsAcyclic(invocables, planner.plan, p);
    }
    return Planned(planner.plan);
  }

  lemma {:induction false} Subset(s: set<Key>, t: set<Key>)
    requires s <= t
    ensures |s| <= |t|
    decreases |s|
  {
    if s != {} {
      var x :| x in s;
      Subset(s - {x}, t - {x});
    }
  }
}
