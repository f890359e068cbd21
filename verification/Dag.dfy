/** Dependency order by Kahn's algorithm with a sorted ready list. */
module Dag {
  // KahnOrder is the simple form: of all nodes whose dependencies are already out, emit the least. Its properties
  // are proved from that alone. TopoSortByDeps is the in-degree bookkeeping of the program, proved equal to it for
  // every iteration order of the dependency map: the in-degrees count the dependencies still missing, and the ready
  // list is the sorted list of the nodes that miss none.

  import opened Names
  import opened Digraph

  type Deps = map<Name, seq<Name>>

  // Reading an absent key of a Go map yields the empty slice.
  function DepsOf(d: Deps, k: Name): seq<Name> {
    if k in d then d[k] else []
  }

  ghost function RelOf(d: Deps): Rel {
    set k, x | k in d && x in d[k] :: (k, x)
  }

  ghost function Ready(keys: set<Name>, d: Deps, done: seq<Name>): set<Name> {
    set k | k in keys && IsReady(d, done, k)
  }

  ghost predicate IsReady(d: Deps, done: seq<Name>, k: Name) {
    k !in done && forall x | x in DepsOf(d, k) :: x in done
  }

  ghost function KahnFrom(keys: set<Name>, d: Deps, done: seq<Name>): seq<Name>
    decreases keys - Elems(done)
  {
    var ready := Ready(keys, d, done);
    if ready == {} then done
    else
      var n := Least(ready);
      assert Elems(done + [n]) == Elems(done) + {n};
      KahnFrom(keys, d, done + [n])
  }

  ghost function KahnOrder(keys: set<Name>, d: Deps): seq<Name> {
    KahnFrom(keys, d, [])
  }

  /** The order the program returns: the emitted nodes, then whatever a cycle left over. */
  ghost function TopoOrder(keys: set<Name>, d: Deps): seq<Name> {
    KahnOrder(keys, d) + SortedOf(keys - Elems(KahnOrder(keys, d)))
  }

  // ---------------------------------------------------------------- properties of the order

  ghost predicate RespectsDeps(order: seq<Name>, d: Deps) {
    forall i, x | 0 <= i < |order| && x in DepsOf(d, order[i]) :: x in order[..i]
  }

  ghost predicate Greedy(keys: set<Name>, d: Deps, o: seq<Name>) {
    forall i | 0 <= i < |o| ::
      o[i] in Ready(keys, d, o[..i]) && forall x | x in Ready(keys, d, o[..i]) :: Le(o[i], x)
  }

  lemma GreedyFacts(keys: set<Name>, d: Deps, o: seq<Name>)
    requires Greedy(keys, d, o)
    ensures Distinct(o) && Elems(o) <= keys && RespectsDeps(o, d)
  {
    forall i, j | 0 <= i < j < |o| ensures o[i] != o[j] {
      assert o[i] in o[..j];
    }
  }

  lemma {:induction false} KahnIsGreedy(keys: set<Name>, d: Deps, done: seq<Name>)
    requires Greedy(keys, d, done)
    ensures Greedy(keys, d, KahnFrom(keys, d, done))
    ensures Ready(keys, d, KahnFrom(keys, d, done)) == {}
    decreases keys - Elems(done)
  {
    var ready := Ready(keys, d, done);
    if ready != {} {
      var n := Least(ready);
      var next := done + [n];
      assert Elems(next) == Elems(done) + {n};
      forall i | 0 <= i < |next|
        ensures next[i] in Ready(keys, d, next[..i]) && forall x | x in Ready(keys, d, next[..i]) :: Le(next[i], x)
      {
        assert next[..i] == done[..i];
        if i == |done| { assert done[..i] == done; }
      }
      KahnIsGreedy(keys, d, next);
    }
  }

  /** Every key appears exactly once, whatever the dependencies are. */
  lemma TopoOrderIsPermutation(keys: set<Name>, d: Deps)
    ensures Distinct(TopoOrder(keys, d)) && Elems(TopoOrder(keys, d)) == keys
  {
    KahnIsGreedy(keys, d, []);
    var o := KahnOrder(keys, d);
    GreedyFacts(keys, d, o);
    DistinctConcat(o, SortedOf(keys - Elems(o)));
  }

  /** The loop emits exactly the nodes from which no walk along dependencies reaches a cycle. */
  lemma EmittedIffNoCycleReached(keys: set<Name>, d: Deps, n: Name)
    requires n in keys && Over(RelOf(d), keys)
    ensures n in KahnOrder(keys, d) <==> !ReachesCycle(RelOf(d), n)
  {
    KahnIsGreedy(keys, d, []);
    var o := KahnOrder(keys, d);
    GreedyFacts(keys, d, o);
    var rel := RelOf(d);
    if n in o {
      var rank := Positions(o);
      forall e | e in rel && e.0 in rank ensures e.1 in rank && rank[e.1] < rank[e.0] {
        var i := rank[e.0];
        assert e.1 in DepsOf(d, o[i]);
        var j :| 0 <= j < i && o[j] == e.1;
      }
      RankedReachesNoCycle(rel, rank, n);
    } else {
      var stuck := keys - Elems(o);
      forall a | a in stuck ensures HasSuccIn(rel, stuck, a) {
        assert a !in Ready(keys, d, o);
        var x :| x in DepsOf(d, a) && x !in o;
        assert (a, x) in rel;
        assert x in stuck;
      }
      StuckReachesCycle(rel, stuck, n);
    }
  }

  ghost function {:induction false} Positions(o: seq<Name>): (m: map<Name, nat>)
    requires Distinct(o)
    ensures forall i | 0 <= i < |o| :: o[i] in m && m[o[i]] == i
    ensures forall x | x in m :: m[x] < |o| && o[m[x]] == x
  {
    if o == [] then map[]
    else
      var k := |o| - 1;
      Positions(o[..k])[o[k] := k]
  }

  /** No dependency-respecting order of the emitted nodes comes before the program's. */
  lemma KahnIsLexicographicallyLeast(keys: set<Name>, d: Deps, p: seq<Name>)
    requires Distinct(p) && Elems(p) == Elems(KahnOrder(keys, d)) && RespectsDeps(p, d)
    ensures LexLe(KahnOrder(keys, d), p)
    ensures RespectsDeps(KahnOrder(keys, d), d)
  {
    KahnIsGreedy(keys, d, []);
    var o := KahnOrder(keys, d);
    GreedyFacts(keys, d, o);
    DistinctSize(o);
    DistinctSize(p);
    LeastFrom(keys, d, o, p, 0);
  }

  lemma {:induction false} LeastFrom(keys: set<Name>, d: Deps, o: seq<Name>, p: seq<Name>, i: nat)
    requires Greedy(keys, d, o) && RespectsDeps(p, d) && Distinct(p) && Elems(p) <= keys
    requires |o| == |p| && i <= |o| && o[..i] == p[..i]
    ensures LexLe(o, p)
    decreases |o| - i
  {
    if i == |o| {
      assert o == o[..i] == p[..i] == p;
      LexLeReflexive(o);
    } else {
      assert p[i] in Elems(p);
      assert p[i] !in p[..i];
      assert p[i] in Ready(keys, d, o[..i]);
      if o[i] == p[i] {
        assert o[..i + 1] == o[..i] + [o[i]] && p[..i + 1] == p[..i] + [p[i]];
        LeastFrom(keys, d, o, p, i + 1);
      } else {
        LexLeAtDifference(o, p, i);
      }
    }
  }

  /** Without cycles nothing is left over, and every dependency comes before its dependent. */
  lemma AcyclicOrderRespectsDeps(keys: set<Name>, d: Deps)
    requires Over(RelOf(d), keys) && Acyclic(RelOf(d))
    ensures TopoOrder(keys, d) == KahnOrder(keys, d)
    ensures RespectsDeps(TopoOrder(keys, d), d)
  {
    var o := KahnOrder(keys, d);
    KahnIsGreedy(keys, d, []);
    GreedyFacts(keys, d, o);
    forall n | n in keys ensures n in Elems(o) {
      EmittedIffNoCycleReached(keys, d, n);
      AcyclicReachesNone(RelOf(d), n);
    }
    var rest := SortedOf(keys - Elems(o));
    assert keys - Elems(o) == {};
    DistinctSize(rest);
  }

  // ---------------------------------------------------------------- the in-degree algorithm

  /** How many entries of deps are still waiting for something outside done. */
  function Unmet(deps: seq<Name>, done: seq<Name>): nat {
    if deps == [] then 0 else (if deps[0] in done then 0 else 1) + Unmet(deps[1..], done)
  }

  lemma {:induction false} UnmetAfter(deps: seq<Name>, done: seq<Name>, n: Name)
    requires n !in done
    ensures Unmet(deps, done + [n]) == Unmet(deps, done) - multiset(deps)[n]
  {
    if deps != [] {
      assert deps == [deps[0]] + deps[1..];
      UnmetAfter(deps[1..], done, n);
    }
  }

  lemma {:induction false} UnmetZero(deps: seq<Name>, done: seq<Name>)
    ensures Unmet(deps, done) == 0 <==> forall x | x in deps :: x in done
  {
    if deps != [] {
      UnmetZero(deps[1..], done);
      assert forall x :: x in deps <==> x == deps[0] || x in deps[1..];
    }
  }

  lemma {:induction false} UnmetInitially(deps: seq<Name>)
    ensures Unmet(deps, []) == |deps|
  {
    if deps != [] { UnmetInitially(deps[1..]); }
  }

  ghost predicate Inverts(dependents: Deps, d: Deps) {
    forall x, k :: multiset(DepsOf(dependents, x))[k] == multiset(DepsOf(d, k))[x]
  }

  lemma InvertsSame(dependents: Deps, c: Deps, c': Deps)
    requires Inverts(dependents, c) && forall k :: DepsOf(c, k) == DepsOf(c', k)
    ensures Inverts(dependents, c')
  {
    forall x, k ensures multiset(DepsOf(dependents, x))[k] == multiset(DepsOf(c', k))[x] {
      assert multiset(DepsOf(dependents, x))[k] == multiset(DepsOf(c, k))[x];
    }
  }

  lemma InvertsOneMore(dependents: Deps, counted: Deps, repo: Name, deps: seq<Name>, j: nat)
    requires j < |deps| && Inverts(dependents, counted[repo := deps[..j]])
    ensures Inverts(dependents[deps[j] := DepsOf(dependents, deps[j]) + [repo]], counted[repo := deps[..j + 1]])
  {
    assert deps[..j + 1] == deps[..j] + [deps[j]];
    var after, now := dependents[deps[j] := DepsOf(dependents, deps[j]) + [repo]], counted[repo := deps[..j + 1]];
    forall x, k ensures multiset(DepsOf(after, x))[k] == multiset(DepsOf(now, k))[x] {
      assert multiset(DepsOf(dependents, x))[k] == multiset(DepsOf(counted[repo := deps[..j]], k))[x];
    }
  }

  method ZeroDegrees(repoKeys: seq<Name>) returns (inDegree: map<Name, int>)
    ensures inDegree.Keys == Elems(repoKeys) && forall k | k in inDegree :: inDegree[k] == 0
  {
    inDegree := map[];
    for i := 0 to |repoKeys|
      invariant inDegree.Keys == Elems(repoKeys[..i]) && forall k | k in inDegree :: inDegree[k] == 0
    {
      inDegree := inDegree[repoKeys[i] := 0];
      assert repoKeys[..i + 1] == repoKeys[..i] + [repoKeys[i]];
    }
    assert repoKeys[..|repoKeys|] == repoKeys;
  }

  ghost predicate Counting(keys: set<Name>, counted: Deps, inDegree: map<Name, int>, dependents: Deps) {
    && inDegree.Keys == keys
    && (forall k | k in inDegree :: inDegree[k] == |DepsOf(counted, k)|)
    && Inverts(dependents, counted)
  }

  lemma CountingInitially(keys: set<Name>, inDegree: map<Name, int>)
    requires inDegree.Keys == keys && forall k | k in inDegree :: inDegree[k] == 0
    ensures Counting(keys, map[], inDegree, map[])
  {
  }

  lemma CountingNext(keys: set<Name>, counted: Deps, inDegree: map<Name, int>, dependents: Deps, after: Deps,
                     repo: Name, deps: seq<Name>)
    requires Counting(keys, counted, inDegree, dependents) && repo in keys
    requires Inverts(after, counted[repo := deps])
    ensures Counting(keys, counted[repo := deps], inDegree[repo := |deps|], after)
  {
  }

  ghost function Without(d: Deps, todo: set<Name>): Deps {
    map k | k in d && k !in todo :: d[k]
  }

  lemma WithoutOneLess(d: Deps, todo: set<Name>, repo: Name)
    requires repo in todo && repo in d
    ensures Without(d, todo - {repo}) == Without(d, todo)[repo := d[repo]]
    ensures repo !in Without(d, todo)
  {
  }

  method CountDependencies(repoKeys: seq<Name>, dependsOn: Deps)
    returns (inDegree: map<Name, int>, dependents: Deps)
    requires dependsOn.Keys <= Elems(repoKeys)
    ensures Counting(Elems(repoKeys), dependsOn, inDegree, dependents)
  {
    inDegree := ZeroDegrees(repoKeys);
    dependents := map[];
    CountingInitially(Elems(repoKeys), inDegree);
    ghost var counted: Deps := map[];
    var todo := dependsOn.Keys;
    SameMap(counted, Without(dependsOn, todo));
    while todo != {}
      invariant todo <= dependsOn.Keys && counted == Without(dependsOn, todo)
      invariant Counting(Elems(repoKeys), counted, inDegree, dependents)
    {
      // Any iteration order of the map.
      var repo :| repo in todo;
      ghost var before, was := dependents, inDegree;
      WithoutOneLess(dependsOn, todo, repo);
      dependents := RecordDependents(dependents, counted, repo, dependsOn[repo]);
      CountingNext(Elems(repoKeys), counted, was, before, dependents, repo, dependsOn[repo]);
      inDegree := inDegree[repo := |dependsOn[repo]|];
      counted := counted[repo := dependsOn[repo]];
      todo := todo - {repo};
    }
    SameMap(Without(dependsOn, {}), dependsOn);
  }

  method RecordDependents(dependents0: Deps, ghost counted: Deps, repo: Name, deps: seq<Name>)
    returns (dependents: Deps)
    requires Inverts(dependents0, counted) && repo !in counted
    ensures Inverts(dependents, counted[repo := deps])
  {
    dependents := dependents0;
    InvertsSame(dependents, counted, counted[repo := deps[..0]]);
    for j := 0 to |deps|
      invariant Inverts(dependents, counted[repo := deps[..j]])
    {
      InvertsOneMore(dependents, counted, repo, deps, j);
      dependents := dependents[deps[j] := DepsOf(dependents, deps[j]) + [repo]];
    }
    assert deps[..|deps|] == deps;
  }

  ghost predicate Released(next: seq<Name>, j: nat, ready0: seq<Name>, inDegree0: map<Name, int>,
                           ready: seq<Name>, inDegree: map<Name, int>)
    requires j <= |next|
  {
    && inDegree.Keys == inDegree0.Keys
    && (forall k | k in inDegree :: inDegree[k] == inDegree0[k] - multiset(next[..j])[k])
    && Sorted(Le, ready) && Distinct(ready)
    && (forall k :: k in ready <==> k in ready0 || (k in next[..j] && k in inDegree && inDegree[k] == 0))
  }

  lemma NextToRelease(next: seq<Name>, j: nat, ready0: seq<Name>, inDegree0: map<Name, int>,
                      ready: seq<Name>, inDegree: map<Name, int>)
    requires j < |next| && Released(next, j, ready0, inDegree0, ready, inDegree)
    requires forall k | k in next :: k in inDegree0 && inDegree0[k] >= multiset(next)[k]
    requires forall k | k in ready0 :: k in inDegree0 && inDegree0[k] == 0
    ensures next[j] in inDegree && inDegree[next[j]] > 0 && next[j] !in ready
  {
    var d := next[j];
    assert next == next[..j] + [d] + next[j + 1..];
    assert multiset(next) == multiset(next[..j]) + multiset{d} + multiset(next[j + 1..]);
    assert d in next;
    assert inDegree[d] > 0;
  }

  lemma OneMoreCount(next: seq<Name>, j: nat, k: Name)
    requires j < |next|
    ensures multiset(next[..j + 1])[k] == multiset(next[..j])[k] + (if k == next[j] then 1 else 0)
    ensures k in next[..j + 1] <==> k in next[..j] || k == next[j]
  {
    assert next[..j + 1] == next[..j] + [next[j]];
  }

  lemma ReleasedNext(next: seq<Name>, j: nat, ready0: seq<Name>, inDegree0: map<Name, int>,
                     ready: seq<Name>, inDegree: map<Name, int>)
    requires j < |next| && Released(next, j, ready0, inDegree0, ready, inDegree)
    requires next[j] in inDegree && inDegree[next[j]] > 0 && next[j] !in ready
    ensures var less := inDegree[next[j] := inDegree[next[j]] - 1];
      if less[next[j]] == 0 then Released(next, j + 1, ready0, inDegree0, Inserted(ready, next[j]), less)
      else Released(next, j + 1, ready0, inDegree0, ready, less)
  {
    var d := next[j];
    var less := inDegree[d := inDegree[d] - 1];
    var after := if less[d] == 0 then Inserted(ready, d) else ready;
    forall k
      ensures k in less ==> less[k] == inDegree0[k] - multiset(next[..j + 1])[k]
      ensures k in after <==> k in ready0 || (k in next[..j + 1] && k in less && less[k] == 0)
    {
      OneMoreCount(next, j, k);
      assert k in ready <==> k in ready0 || (k in next[..j] && k in inDegree && inDegree[k] == 0);
    }
  }

  /** One emitted node's dependents: decrement each, and list those that become ready. */
  method Release(next: seq<Name>, ready0: seq<Name>, inDegree0: map<Name, int>)
    returns (ready: seq<Name>, inDegree: map<Name, int>)
    requires Sorted(Le, ready0) && Distinct(ready0)
    requires forall k | k in next :: k in inDegree0 && inDegree0[k] >= multiset(next)[k]
    requires forall k | k in ready0 :: k in inDegree0 && inDegree0[k] == 0
    ensures inDegree.Keys == inDegree0.Keys
    ensures forall k | k in inDegree :: inDegree[k] == inDegree0[k] - multiset(next)[k]
    ensures Sorted(Le, ready) && Distinct(ready)
    ensures forall k :: k in ready <==> k in ready0 || (k in next && k in inDegree && inDegree[k] == 0)
  {
    ready, inDegree := ready0, inDegree0;
    for j := 0 to |next|
      invariant Released(next, j, ready0, inDegree0, ready, inDegree)
    {
      var d := next[j];
      NextToRelease(next, j, ready0, inDegree0, ready, inDegree);
      ReleasedNext(next, j, ready0, inDegree0, ready, inDegree);
      inDegree := inDegree[d := inDegree[d] - 1];
      if inDegree[d] == 0 {
        ready := Inserted(ready, d);
      }
    }
    assert next[..|next|] == next;
  }

  function Inserted(ready: seq<Name>, d: Name): (r: seq<Name>)
    requires Distinct(ready) && d !in ready
    ensures Sorted(Le, r) && Distinct(r)
    ensures forall k :: k in r <==> k in ready || k == d
  {
    SortNamesLists(ready + [d]);
    var r := SortNames(ready + [d]);
    assert forall k :: (k in r <==> k in Elems(r)) && (k in ready + [d] <==> k in Elems(ready + [d]));
    r
  }

  method AppendLeftover(repoKeys: seq<Name>, emitted: seq<Name>) returns (order: seq<Name>)
    requires Distinct(repoKeys)
    ensures order == emitted + SortedOf(Elems(repoKeys) - Elems(emitted))
  {
    var inOrder := Elems(emitted);
    var rest: seq<Name> := [];
    for i := 0 to |repoKeys|
      invariant Distinct(rest) && Elems(rest) == Elems(repoKeys[..i]) - inOrder
    {
      assert repoKeys[..i + 1] == repoKeys[..i] + [repoKeys[i]];
      assert Elems(repoKeys[..i + 1]) == Elems(repoKeys[..i]) + {repoKeys[i]};
      if repoKeys[i] !in inOrder {
        assert Elems(rest + [repoKeys[i]]) == Elems(rest) + {repoKeys[i]};
        assert repoKeys[i] !in Elems(rest);
        rest := rest + [repoKeys[i]];
      }
    }
    assert repoKeys[..|repoKeys|] == repoKeys;
    SortNamesLists(rest);
    ListingIs(SortNames(rest), Elems(repoKeys) - Elems(emitted));
    order := emitted + SortNames(rest);
  }

  lemma DoneIsClosed(done: seq<Name>, d: Deps, k: Name, x: Name)
    requires RespectsDeps(done, d) && k in done && x in DepsOf(d, k)
    ensures x in done
  {
    var i :| 0 <= i < |done| && done[i] == k;
    assert x in done[..i];
  }

  lemma InvertsAt(dependents: Deps, d: Deps, n: Name, k: Name)
    requires Inverts(dependents, d)
    ensures multiset(DepsOf(dependents, n))[k] == multiset(DepsOf(d, k))[n]
    ensures k in DepsOf(dependents, n) <==> n in DepsOf(d, k)
  {
    assert k in DepsOf(dependents, n) <==> k in multiset(DepsOf(dependents, n));
    assert n in DepsOf(d, k) <==> n in multiset(DepsOf(d, k));
  }

  /** How emitting n moves a node's waiting count, and which nodes that makes ready. */
  lemma EmitOne(keys: set<Name>, d: Deps, done: seq<Name>, n: Name, dependents: Deps, next: seq<Name>, k: Name)
    requires n in Ready(keys, d, done) && Inverts(dependents, d) && RespectsDeps(done, d) && d.Keys <= keys
    requires multiset(next) == multiset(DepsOf(dependents, n))
    ensures Unmet(DepsOf(d, k), done + [n]) == Unmet(DepsOf(d, k), done) - multiset(next)[k]
    ensures k in next ==> k in keys && Unmet(DepsOf(d, k), done) >= multiset(next)[k]
    ensures k in Ready(keys, d, done) ==> Unmet(DepsOf(d, k), done) == 0
    ensures k in Ready(keys, d, done + [n]) <==>
      (k in Ready(keys, d, done) && k != n) || (k in next && Unmet(DepsOf(d, k), done + [n]) == 0)
  {
    InvertsAt(dependents, d, n, k);
    UnmetAfter(DepsOf(d, k), done, n);
    UnmetZero(DepsOf(d, k), done);
    UnmetZero(DepsOf(d, k), done + [n]);
    assert k in next <==> k in multiset(next);
    assert k in DepsOf(dependents, n) <==> k in multiset(DepsOf(dependents, n));
    if k in next && k in done {
      DoneIsClosed(done, d, k, n);
    }
  }

  ghost predicate LoopInv(keys: set<Name>, d: Deps, order: seq<Name>, ready: seq<Name>, inDegree: map<Name, int>) {
    && Sorted(Le, ready) && Distinct(ready)
    && (forall k :: k in ready <==> k in Ready(keys, d, order))
    && inDegree.Keys == keys
    && (forall k | k in keys :: inDegree[k] == Unmet(DepsOf(d, k), order))
    && RespectsDeps(order, d)
    && KahnFrom(keys, d, order) == KahnOrder(keys, d)
  }

  method TopoSortByDeps(repoKeys: seq<Name>, dependsOn: Deps) returns (order: seq<Name>)
    requires Distinct(repoKeys) && dependsOn.Keys <= Elems(repoKeys)
    ensures order == TopoOrder(Elems(repoKeys), dependsOn)
  {
    ghost var keys := Elems(repoKeys);
    var inDegree, dependents := CountDependencies(repoKeys, dependsOn);
    var ready := InitialReady(repoKeys, dependsOn, inDegree);
    order := [];
    while |ready| > 0
      invariant LoopInv(keys, dependsOn, order, ready, inDegree)
      decreases keys - Elems(order)
    {
      var n := ready[0];
      var next := SortNames(DepsOf(dependents, n));
      HeadIsLeast(ready, Ready(keys, dependsOn, order));
      forall k
        ensures k in next ==> k in keys && inDegree[k] >= multiset(next)[k]
        ensures k in ready ==> k in keys && inDegree[k] == 0
      {
        EmitOne(keys, dependsOn, order, n, dependents, next, k);
      }
      ghost var was, degrees := order, inDegree;
      ready, inDegree := Release(next, ready[1..], inDegree);
      order := order + [n];
      EmittedInv(keys, dependsOn, was, n, dependents, next, degrees, ready, inDegree);
    }
    assert forall k :: k !in Ready(keys, dependsOn, order);
    order := AppendLeftover(repoKeys, order);
  }

  lemma EmittedInv(keys: set<Name>, d: Deps, was: seq<Name>, n: Name, dependents: Deps, next: seq<Name>,
                   degrees: map<Name, int>, ready: seq<Name>, inDegree: map<Name, int>)
    requires Inverts(dependents, d) && d.Keys <= keys && RespectsDeps(was, d)
    requires n in Ready(keys, d, was) && n == Least(Ready(keys, d, was))
    requires multiset(next) == multiset(DepsOf(dependents, n))
    requires degrees.Keys == inDegree.Keys == keys
    requires forall k | k in keys :: degrees[k] == Unmet(DepsOf(d, k), was)
    requires KahnFrom(keys, d, was) == KahnOrder(keys, d)
    requires Sorted(Le, ready) && Distinct(ready)
    requires forall k | k in inDegree :: inDegree[k] == degrees[k] - multiset(next)[k]
    requires forall k :: k in ready <==>
      (k in Ready(keys, d, was) && k != n) || (k in next && k in inDegree && inDegree[k] == 0)
    ensures LoopInv(keys, d, was + [n], ready, inDegree)
    ensures keys - Elems(was + [n]) < keys - Elems(was)
  {
    forall k
      ensures k in ready <==> k in Ready(keys, d, was + [n])
      ensures k in keys ==> inDegree[k] == Unmet(DepsOf(d, k), was + [n])
    {
      EmitOne(keys, d, was, n, dependents, next, k);
    }
    OrderExtends(was, n, keys, d);
    KahnStep(keys, d, was);
  }

  lemma KahnStep(keys: set<Name>, d: Deps, done: seq<Name>)
    requires Ready(keys, d, done) != {}
    ensures var next := done + [Least(Ready(keys, d, done))];
      && KahnFrom(keys, d, next) == KahnFrom(keys, d, done)
      && keys - Elems(next) < keys - Elems(done)
  {
    var n := Least(Ready(keys, d, done));
    assert Elems(done + [n]) == Elems(done) + {n};
  }

  method InitialReady(repoKeys: seq<Name>, d: Deps, inDegree: map<Name, int>) returns (ready: seq<Name>)
    requires Distinct(repoKeys) && inDegree.Keys == Elems(repoKeys)
    requires forall k | k in inDegree :: inDegree[k] == |DepsOf(d, k)|
    ensures LoopInv(Elems(repoKeys), d, [], ready, inDegree)
  {
    ready := [];
    for i := 0 to |repoKeys|
      invariant Distinct(ready) && forall k :: k in ready <==> k in repoKeys[..i] && inDegree[k] == 0
    {
      assert repoKeys[..i + 1] == repoKeys[..i] + [repoKeys[i]];
      if inDegree[repoKeys[i]] == 0 {
        ready := ready + [repoKeys[i]];
      }
    }
    assert repoKeys[..|repoKeys|] == repoKeys;
    SortNamesLists(ready);
    assert forall k :: (k in SortNames(ready) <==> k in Elems(SortNames(ready))) && (k in ready <==> k in Elems(ready));
    ready := SortNames(ready);
    forall k ensures Unmet(DepsOf(d, k), []) == |DepsOf(d, k)| { UnmetInitially(DepsOf(d, k)); }
    forall k ensures k in ready <==> k in Ready(Elems(repoKeys), d, []) {
      UnmetZero(DepsOf(d, k), []);
    }
  }

  lemma OrderExtends(was: seq<Name>, n: Name, keys: set<Name>, d: Deps)
    requires RespectsDeps(was, d) && n in Ready(keys, d, was)
    ensures RespectsDeps(was + [n], d)
  {
    var o := was + [n];
    forall i, x | 0 <= i < |o| && x in DepsOf(d, o[i]) ensures x in o[..i] {
      if i < |was| {
        assert o[i] == was[i] && o[..i] == was[..i];
      } else {
        assert o[..i] == was;
      }
    }
  }

  lemma HeadIsLeast(ready: seq<Name>, S: set<Name>)
    requires Sorted(Le, ready) && Distinct(ready) && |ready| > 0 && forall k :: k in ready <==> k in S
    ensures S != {} && Least(S) == ready[0]
    ensures forall k :: k in ready[1..] <==> k in S && k != ready[0]
  {
    NamesAreTotallyOrdered();
    assert ready[0] in S;
    forall x | x in S ensures Le(ready[0], x) {
      assert x in ready;
    }
    LeastIs(S, ready[0]);
    assert ready == [ready[0]] + ready[1..];
  }
}
