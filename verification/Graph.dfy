/** The graph of the workspace as it is displayed: built from slugs and declared URLs, sorted level by level, and
    then brought into the order in which repositories are published. */
module Graph {
  // A node's level is the length of its longest dependency chain. The sort emits one level after the other by
  // counting down in-degrees, and it gets stuck exactly when what remains contains a cycle; both are proved against
  // chains, which do not mention the counting. The last part relates this sort to the order of the lock: the stable
  // partition that puts foundation repositories first turns it into an order that obeys the same rule, although the
  // two are computed independently.

  import opened Names
  import opened Digraph
  import opened Edges

  datatype Graph = Graph(edges: map<Name, set<Name>>, inDegree: map<Name, int>, slugOwner: map<string, Name>)
  datatype GraphResult = Built(graph: Graph) | SlugClaimedTwice(slug: string, first: Name, second: Name)
  datatype SortResult = Order(order: seq<Name>) | DependencyCycle(remaining: seq<Name>)

  ghost function GraphRel(edges: map<Name, set<Name>>): Rel {
    set a, b | a in edges && b in edges[a] :: (a, b)
  }

  ghost function Dependents(edges: map<Name, set<Name>>, n: Name): set<Name> {
    set a | a in edges && n in edges[a]
  }

  ghost predicate Wellformed(g: Graph) {
    && g.edges.Keys == g.inDegree.Keys
    && (forall a, b | a in g.edges && b in g.edges[a] :: b in g.edges)
  }

  // ---------------------------------------------------------------- construction

  ghost predicate OwnsSlug(slugs: map<Name, set<string>>, s: string, n: Name) {
    n in slugs && s in slugs[n]
  }

  ghost predicate OwnerIs(slugs: map<Name, set<string>>, owner: map<string, Name>) {
    forall s, n :: OwnsSlug(slugs, s, n) <==> s in owner && owner[s] == n
  }

  ghost predicate SlugsDisjoint(slugs: map<Name, set<string>>) {
    forall s, n, n' :: OwnsSlug(slugs, s, n) && OwnsSlug(slugs, s, n') ==> n == n'
  }

  /** The repos that own a slug of one of the URLs, the declaring repo excepted. */
  ghost function Linked(
    slugs: map<Name, set<string>>, slugOf: string -> string, from: Name, urls: set<string>): set<Name>
  {
    set t | t in slugs && t != from && exists u :: u in urls && slugOf(u) != "" && OwnsSlug(slugs, slugOf(u), t)
  }

  ghost function LinkedFrom(slugs: map<Name, set<string>>, inputs: map<Name, set<string>>, slugOf: string -> string,
                            done: set<Name>): map<Name, set<Name>> {
    map a | a in slugs :: if a in inputs && a in done then Linked(slugs, slugOf, a, inputs[a]) else {}
  }

  method OwnSlugs(slugs: map<Name, set<string>>) returns (owner: map<string, Name>, dup: GraphResult)
    ensures dup.SlugClaimedTwice? <==> !SlugsDisjoint(slugs)
    ensures dup.SlugClaimedTwice? ==>
      dup.first != dup.second && OwnsSlug(slugs, dup.slug, dup.first) && OwnsSlug(slugs, dup.slug, dup.second)
    ensures SlugsDisjoint(slugs) ==> OwnerIs(slugs, owner)
  {
    owner, dup := map[], Built(Graph(map[], map[], map[]));
    var todo := slugs.Keys;
    while todo != {}
      invariant todo <= slugs.Keys
      invariant forall s | s in owner :: OwnsSlug(slugs, s, owner[s])
      invariant forall s, n :: OwnsSlug(slugs, s, n) && n !in todo ==> s in owner && owner[s] == n
    {
      var name :| name in todo;
      var left := slugs[name];
      while left != {}
        invariant left <= slugs[name]
        invariant forall s | s in owner :: OwnsSlug(slugs, s, owner[s])
        invariant forall s, n :: OwnsSlug(slugs, s, n) && n !in todo ==> s in owner && owner[s] == n
        invariant forall s | s in slugs[name] && s !in left :: s in owner && owner[s] == name
      {
        var slug :| slug in left;
        if slug in owner && owner[slug] != name {
          dup := SlugClaimedTwice(slug, owner[slug], name);
          assert OwnsSlug(slugs, slug, name);
          return;
        }
        owner := owner[slug := name];
        left := left - {slug};
      }
      todo := todo - {name};
    }
  }

  ghost predicate DegreesCount(edges: map<Name, set<Name>>, inDegree: map<Name, int>) {
    inDegree.Keys == edges.Keys && forall n | n in inDegree :: inDegree[n] == |Dependents(edges, n)|
  }

  lemma DependentsAfter(edges: map<Name, set<Name>>, from: Name, to: Name, n: Name)
    requires from in edges && to !in edges[from]
    ensures Dependents(edges[from := edges[from] + {to}], n) == Dependents(edges, n) + if n == to then {from} else {}
    ensures from !in Dependents(edges, to)
  {
  }

  lemma AddEdge(edges: map<Name, set<Name>>, inDegree: map<Name, int>, from: Name, to: Name)
    requires DegreesCount(edges, inDegree) && from in edges && to in edges && to !in edges[from]
    ensures DegreesCount(edges[from := edges[from] + {to}], inDegree[to := inDegree[to] + 1])
  {
    var after, more := edges[from := edges[from] + {to}], inDegree[to := inDegree[to] + 1];
    forall n | n in more ensures more[n] == |Dependents(after, n)| {
      DependentsAfter(edges, from, to, n);
      assert inDegree[n] == |Dependents(edges, n)|;
    }
  }

  lemma LinkedAfter(slugs: map<Name, set<string>>, owner: map<string, Name>, slugOf: string -> string, from: Name,
                    seen: set<string>, url: string)
    requires OwnerIs(slugs, owner)
    ensures var s := slugOf(url);
      Linked(slugs, slugOf, from, seen + {url}) == Linked(slugs, slugOf, from, seen) +
        if s != "" && s in owner && owner[s] != from then {owner[s]} else {}
    ensures var s := slugOf(url); s in owner ==> owner[s] in slugs
  {
    var s := slugOf(url);
    var extra := if s != "" && s in owner && owner[s] != from then {owner[s]} else {};
    if s in owner { assert OwnsSlug(slugs, s, owner[s]); }
    forall t
      ensures t in Linked(slugs, slugOf, from, seen + {url}) <==> t in Linked(slugs, slugOf, from, seen) + extra
    {
      if t in Linked(slugs, slugOf, from, seen) {
        var u :| u in seen && slugOf(u) != "" && OwnsSlug(slugs, slugOf(u), t);
        assert u in seen + {url};
      }
      if t in extra { assert url in seen + {url}; }
    }
  }

  method LinkInputs(edges0: map<Name, set<Name>>, inDegree0: map<Name, int>, ghost slugs: map<Name, set<string>>,
                    owner: map<string, Name>, from: Name, urls: set<string>, slugOf: string -> string)
    returns (edges: map<Name, set<Name>>, inDegree: map<Name, int>)
    requires DegreesCount(edges0, inDegree0) && edges0.Keys == slugs.Keys && from in edges0 && edges0[from] == {}
    requires OwnerIs(slugs, owner)
    ensures DegreesCount(edges, inDegree)
    ensures edges == edges0[from := Linked(slugs, slugOf, from, urls)]
  {
    edges, inDegree := edges0, inDegree0;
    ghost var seen: set<string> := {};
    var todo := urls;
    UpdateTwice(edges0, from, {}, {});
    assert Linked(slugs, slugOf, from, {}) == {};
    while todo != {}
      invariant seen + todo == urls && DegreesCount(edges, inDegree)
      invariant edges == edges0[from := Linked(slugs, slugOf, from, seen)]
      decreases todo
    {
      var url :| url in todo;
      UpdateTwice(edges0, from, Linked(slugs, slugOf, from, seen), Linked(slugs, slugOf, from, seen + {url}));
      edges, inDegree := LinkOne(edges, inDegree, slugs, owner, from, seen, slugOf, url);
      todo := todo - {url};
      seen := seen + {url};
    }
  }

  method LinkOne(edges0: map<Name, set<Name>>, inDegree0: map<Name, int>, ghost slugs: map<Name, set<string>>,
                 owner: map<string, Name>, from: Name, ghost seen: set<string>, slugOf: string -> string, url: string)
    returns (edges: map<Name, set<Name>>, inDegree: map<Name, int>)
    requires DegreesCount(edges0, inDegree0) && edges0.Keys == slugs.Keys && from in edges0
    requires edges0[from] == Linked(slugs, slugOf, from, seen)
    requires OwnerIs(slugs, owner)
    ensures DegreesCount(edges, inDegree)
    ensures edges == edges0[from := Linked(slugs, slugOf, from, seen + {url})]
  {
    edges, inDegree := edges0, inDegree0;
    LinkedAfter(slugs, owner, slugOf, from, seen, url);
    var slug := slugOf(url);
    if slug != "" && slug in owner && owner[slug] != from {
      var to := owner[slug];
      if to !in edges[from] {
        AddEdge(edges, inDegree, from, to);
        inDegree := inDegree[to := inDegree[to] + 1];
        edges := edges[from := edges[from] + {to}];
        return;
      }
    }
    assert Linked(slugs, slugOf, from, seen + {url}) == edges0[from];
    UpdateTwice(edges0, from, edges0[from], edges0[from]);
  }

  lemma LinkedFromAfter(slugs: map<Name, set<string>>, inputs: map<Name, set<string>>, slugOf: string -> string,
                        done: set<Name>, from: Name)
    requires from in inputs && from !in done
    ensures LinkedFrom(slugs, inputs, slugOf, done + {from}) ==
      if from in slugs then LinkedFrom(slugs, inputs, slugOf, done)[from := Linked(slugs, slugOf, from, inputs[from])]
      else LinkedFrom(slugs, inputs, slugOf, done)
  {
    SameMap(LinkedFrom(slugs, inputs, slugOf, done + {from}),
            if from in slugs
            then LinkedFrom(slugs, inputs, slugOf, done)[from := Linked(slugs, slugOf, from, inputs[from])]
            else LinkedFrom(slugs, inputs, slugOf, done));
  }

  lemma NoEdges(slugs: map<Name, set<string>>, inputs: map<Name, set<string>>, slugOf: string -> string,
                edges: map<Name, set<Name>>, inDegree: map<Name, int>)
    requires edges.Keys == inDegree.Keys == slugs.Keys
    requires forall n | n in slugs :: edges[n] == {} && inDegree[n] == 0
    ensures edges == LinkedFrom(slugs, inputs, slugOf, {}) && DegreesCount(edges, inDegree)
  {
    forall n ensures Dependents(edges, n) == {} {}
    SameMap(edges, LinkedFrom(slugs, inputs, slugOf, {}));
  }

  method LinkConsumer(edges0: map<Name, set<Name>>, inDegree0: map<Name, int>, ghost slugs: map<Name, set<string>>,
                      owner: map<string, Name>, inputs: map<Name, set<string>>, ghost done: set<Name>, from: Name,
                      slugOf: string -> string)
    returns (edges: map<Name, set<Name>>, inDegree: map<Name, int>)
    requires DegreesCount(edges0, inDegree0) && edges0 == LinkedFrom(slugs, inputs, slugOf, done)
    requires from in inputs && from !in done
    requires OwnerIs(slugs, owner)
    ensures DegreesCount(edges, inDegree) && edges == LinkedFrom(slugs, inputs, slugOf, done + {from})
  {
    edges, inDegree := edges0, inDegree0;
    LinkedFromAfter(slugs, inputs, slugOf, done, from);
    if from in edges {
      edges, inDegree := LinkInputs(edges, inDegree, slugs, owner, from, inputs[from], slugOf);
    }
  }

  method LinkAll(slugs: map<Name, set<string>>, owner: map<string, Name>, inputs: map<Name, set<string>>,
                 slugOf: string -> string)
    returns (edges: map<Name, set<Name>>, inDegree: map<Name, int>)
    requires OwnerIs(slugs, owner)
    ensures DegreesCount(edges, inDegree) && edges == LinkedFrom(slugs, inputs, slugOf, inputs.Keys)
  {
    edges := map n | n in slugs :: {};
    inDegree := map n | n in slugs :: 0;
    NoEdges(slugs, inputs, slugOf, edges, inDegree);
    assert inputs.Keys - inputs.Keys == {};
    var todo := inputs.Keys;
    while todo != {}
      invariant todo <= inputs.Keys
      invariant DegreesCount(edges, inDegree) && edges == LinkedFrom(slugs, inputs, slugOf, inputs.Keys - todo)
      decreases todo
    {
      edges, inDegree, todo := LinkNext(edges, inDegree, slugs, owner, inputs, todo, slugOf);
    }
    assert inputs.Keys - todo == inputs.Keys;
  }

  /** Any consumer still to do: the outcome does not depend on which. */
  method LinkNext(edges0: map<Name, set<Name>>, inDegree0: map<Name, int>, ghost slugs: map<Name, set<string>>,
                  owner: map<string, Name>, inputs: map<Name, set<string>>, todo0: set<Name>, slugOf: string -> string)
    returns (edges: map<Name, set<Name>>, inDegree: map<Name, int>, todo: set<Name>)
    requires OwnerIs(slugs, owner) && todo0 <= inputs.Keys && todo0 != {}
    requires DegreesCount(edges0, inDegree0) && edges0 == LinkedFrom(slugs, inputs, slugOf, inputs.Keys - todo0)
    ensures todo < todo0
    ensures DegreesCount(edges, inDegree) && edges == LinkedFrom(slugs, inputs, slugOf, inputs.Keys - todo)
  {
    var from :| from in todo0;
    todo := todo0 - {from};
    assert inputs.Keys - todo0 + {from} == inputs.Keys - todo;
    edges, inDegree := LinkConsumer(edges0, inDegree0, slugs, owner, inputs, inputs.Keys - todo0, from, slugOf);
  }

  /** Slugs and declared URLs to a graph; repositories outside slugs are ignored as consumers. */
  method BuildGraph(slugs: map<Name, set<string>>, inputs: map<Name, set<string>>, slugOf: string -> string)
    returns (r: GraphResult)
    ensures r.Built? <==> SlugsDisjoint(slugs)
    ensures r.Built? ==> r.graph.edges == LinkedFrom(slugs, inputs, slugOf, inputs.Keys)
    ensures r.Built? ==> DegreesCount(r.graph.edges, r.graph.inDegree)
    ensures r.SlugClaimedTwice? ==>
      r.first != r.second && OwnsSlug(slugs, r.slug, r.first) && OwnsSlug(slugs, r.slug, r.second)
  {
    var owner, dup := OwnSlugs(slugs);
    if dup.SlugClaimedTwice? { return dup; }
    var edges, inDegree := LinkAll(slugs, owner, inputs, slugOf);
    return Built(Graph(edges, inDegree, owner));
  }

  lemma BuiltIsWellformed(
    slugs: map<Name, set<string>>, inputs: map<Name, set<string>>, slugOf: string -> string, g: Graph)
    requires g.edges == LinkedFrom(slugs, inputs, slugOf, inputs.Keys) && DegreesCount(g.edges, g.inDegree)
    ensures Wellformed(g)
    ensures forall a | a in g.edges :: a !in g.edges[a]
  {
  }

  // ---------------------------------------------------------------- the graph and the lock

  /** The canonical forms of a repository's URLs, as slugs. */
  ghost function CanonSlugs(repos: Repos, canon: string -> string): map<Name, set<string>> {
    map k | k in repos :: set u | u in repos[k].urls && u != "" && canon(u) != "" :: canon(u)
  }

  ghost function FlakeUrls(inputs: Inputs): map<Name, set<string>> {
    map k | k in inputs :: set a | a in inputs[k] && inputs[k][a].flake && inputs[k][a].url != "" :: inputs[k][a].url
  }

  /** Where slugs are the canonical forms of the URLs, the graph is built exactly when the lock is, and links the
      same repositories: those with a flake input among the other's URLs. */
  lemma LinksAreEdges(repos: Repos, inputs: Inputs, canon: string -> string, edges: seq<LockEdge>)
    requires forall e :: e in edges <==> IsEdge(repos, inputs, canon, e)
    ensures var slugs, urls := CanonSlugs(repos, canon), FlakeUrls(inputs);
      && (SlugsDisjoint(slugs) <==> UniqueClaims(repos, canon))
      && GraphRel(LinkedFrom(slugs, urls, canon, urls.Keys)) == EdgeRel(edges)
  {
    var slugs, urls := CanonSlugs(repos, canon), FlakeUrls(inputs);
    forall s, k ensures OwnsSlug(slugs, s, k) <==> Claims(repos, canon, s, k) {}
    var links := LinkedFrom(slugs, urls, canon, urls.Keys);
    forall a, b | (a, b) in GraphRel(links) ensures (a, b) in EdgeRel(edges) {
      var u :| u in urls[a] && canon(u) != "" && OwnsSlug(slugs, canon(u), b);
      var alias :| alias in inputs[a] && inputs[a][alias].flake && inputs[a][alias].url == u;
      assert IsEdge(repos, inputs, canon, LockEdge(a, alias, b));
    }
    forall e | e in edges ensures (e.consumer, e.target) in GraphRel(links) {
      assert IsEdge(repos, inputs, canon, e);
      var u := inputs[e.consumer][e.alias].url;
      assert u in urls[e.consumer] && OwnsSlug(slugs, canon(u), e.target);
    }
  }

  // ---------------------------------------------------------------- levels

  /** Some dependency chain of length k starts at n. */
  ghost predicate HasChain(edges: map<Name, set<Name>>, n: Name, k: nat)
    decreases k
  {
    k == 0 || (n in edges && exists m :: m in edges[n] && HasChain(edges, m, k - 1))
  }

  lemma {:induction false} ChainShortens(edges: map<Name, set<Name>>, n: Name, k: nat)
    requires HasChain(edges, n, k + 1)
    ensures HasChain(edges, n, k)
    decreases k
  {
    if k > 0 {
      var m :| m in edges[n] && HasChain(edges, m, k);
      ChainShortens(edges, m, k - 1);
    }
  }

  lemma {:induction false} ChainLonger(edges: map<Name, set<Name>>, n: Name, j: nat, k: nat)
    requires j <= k && HasChain(edges, n, k)
    ensures HasChain(edges, n, j)
    decreases k
  {
    if j < k {
      ChainShortens(edges, n, k - 1);
      ChainLonger(edges, n, j, k - 1);
    }
  }

  /** The longest dependency chain starting at n has length k. */
  ghost predicate LongestChain(edges: map<Name, set<Name>>, n: Name, k: nat) {
    HasChain(edges, n, k) && !HasChain(edges, n, k + 1)
  }

  /** The nodes whose longest dependency chain has length k. */
  ghost function Level(edges: map<Name, set<Name>>, k: nat): set<Name> {
    set n | n in edges && LongestChain(edges, n, k)
  }

  ghost function AtLeast(edges: map<Name, set<Name>>, k: nat): set<Name> {
    set n | n in edges && HasChain(edges, n, k)
  }

  /** The first k levels, each in alphabetical order. */
  ghost function Levels(edges: map<Name, set<Name>>, k: nat): seq<Name> {
    if k == 0 then [] else Levels(edges, k - 1) + SortedOf(Level(edges, k - 1))
  }

  lemma LevelSplits(edges: map<Name, set<Name>>, k: nat)
    ensures AtLeast(edges, k) == AtLeast(edges, k + 1) + Level(edges, k)
    ensures AtLeast(edges, k + 1) !! Level(edges, k)
  {
    forall n | n in AtLeast(edges, k + 1) ensures n in AtLeast(edges, k) { ChainShortens(edges, n, k); }
  }

  ghost function DepsIn(edges: map<Name, set<Name>>, n: Name, nodes: set<Name>): set<Name>
    requires n in edges
  {
    edges[n] * nodes
  }

  /** A node of the k-th remainder has a dependency in it exactly when it survives the next round. */
  lemma SurvivesIff(edges: map<Name, set<Name>>, n: Name, k: nat)
    requires n in AtLeast(edges, k) && (forall m | m in edges[n] :: m in edges)
    ensures DepsIn(edges, n, AtLeast(edges, k)) == {} <==> n in Level(edges, k)
  {
    if HasChain(edges, n, k + 1) {
      var m :| m in edges[n] && HasChain(edges, m, k);
      assert m in DepsIn(edges, n, AtLeast(edges, k));
    }
    if DepsIn(edges, n, AtLeast(edges, k)) != {} {
      var m :| m in DepsIn(edges, n, AtLeast(edges, k));
      assert HasChain(edges, n, k + 1);
    }
  }

  /** Every listed repo once, ordered by (length of its longest dependency chain, name). */
  ghost predicate LevelOrder(edges: map<Name, set<Name>>, order: seq<Name>) {
    && Distinct(order) && Elems(order) == edges.Keys
    && forall i, j | 0 <= i < j < |order| :: ByLevelThenName(edges, order[i], order[j])
  }

  ghost predicate ByLevelThenName(edges: map<Name, set<Name>>, a: Name, b: Name) {
    exists p: nat, q: nat :: LongestChain(edges, a, p) && LongestChain(edges, b, q) && (p < q || (p == q && Le(a, b)))
  }

  lemma {:induction false} LevelsAreOrdered(edges: map<Name, set<Name>>, k: nat)
    ensures Distinct(Levels(edges, k)) && Elems(Levels(edges, k)) == edges.Keys - AtLeast(edges, k)
    ensures forall i, j | 0 <= i < j < |Levels(edges, k)| ::
      ByLevelThenName(edges, Levels(edges, k)[i], Levels(edges, k)[j])
  {
    if k > 0 {
      LevelsAreOrdered(edges, k - 1);
      LevelSplits(edges, k - 1);
      var a, b := Levels(edges, k - 1), SortedOf(Level(edges, k - 1));
      DistinctConcat(a, b);
      forall i, j | 0 <= i < j < |a + b| ensures ByLevelThenName(edges, (a + b)[i], (a + b)[j]) {
        if j >= |a| {
          assert b[j - |a|] in Elems(b);
          if i >= |a| {
            assert b[i - |a|] in Elems(b);
          } else {
            assert a[i] in Elems(a);
            var p := ChainLength(edges, a[i], k - 1);
          }
        }
      }
    } else {
      assert AtLeast(edges, 0) == edges.Keys;
    }
  }

  lemma {:induction false} ChainLength(edges: map<Name, set<Name>>, n: Name, k: nat) returns (p: nat)
    requires !HasChain(edges, n, k)
    ensures p < k && LongestChain(edges, n, p)
    decreases k
  {
    if HasChain(edges, n, k - 1) {
      p := k - 1;
    } else {
      p := ChainLength(edges, n, k - 1);
    }
  }

  // ---------------------------------------------------------------- cycles

  lemma {:induction false} CycleHasEveryChain(edges: map<Name, set<Name>>, stuck: set<Name>, n: Name, k: nat)
    requires n in stuck && stuck <= edges.Keys
    requires forall a | a in stuck :: HasSuccIn(GraphRel(edges), stuck, a)
    ensures HasChain(edges, n, k)
    decreases k
  {
    if k > 0 {
      assert HasSuccIn(GraphRel(edges), stuck, n);
      var b :| b in stuck && (n, b) in GraphRel(edges);
      CycleHasEveryChain(edges, stuck, b, k - 1);
    }
  }

  lemma CycleMembersStuck(edges: map<Name, set<Name>>, c: seq<Name>)
    requires Cycle(GraphRel(edges), c)
    ensures c[0] in Elems(c) && Elems(c) <= edges.Keys
    ensures forall a | a in Elems(c) :: HasSuccIn(GraphRel(edges), Elems(c), a)
  {
    var rel := GraphRel(edges);
    forall a | a in Elems(c) ensures a in edges && HasSuccIn(rel, Elems(c), a) {
      var i :| 0 <= i < |c| && c[i] == a;
      var j := if i == |c| - 1 then 0 else i;
      assert (c[j], c[j + 1]) in rel;
      assert c[j + 1] in Elems(c);
    }
  }

  /** The k-th remainder is empty for some k exactly when there is no cycle. */
  lemma RemainderOfCycle(edges: map<Name, set<Name>>, c: seq<Name>, k: nat)
    requires Cycle(GraphRel(edges), c)
    ensures AtLeast(edges, k) != {}
  {
    CycleMembersStuck(edges, c);
    CycleHasEveryChain(edges, Elems(c), c[0], k);
    assert c[0] in AtLeast(edges, k);
  }

  /** The nodes from which a walk along dependencies reaches a cycle. */
  ghost function CycleBound(edges: map<Name, set<Name>>): set<Name> {
    set n | n in edges && ReachesCycle(GraphRel(edges), n)
  }

  lemma ReachingHasSucc(rel: Rel, w: seq<Name>, c: seq<Name>, a: Name)
    requires Walk(rel, w) && Cycle(rel, c) && c[0] == w[|w| - 1] && a in Elems(w) + Elems(c)
    ensures HasSuccIn(rel, Elems(w) + Elems(c), a)
  {
    if a in Elems(c) {
      var i :| 0 <= i < |c| && c[i] == a;
      var j := if i == |c| - 1 then 0 else i;
      assert (c[j], c[j + 1]) in rel && c[j + 1] in Elems(c);
    } else {
      var i :| 0 <= i < |w| && w[i] == a;
      assert c[0] in Elems(c);
      assert (w[i], w[i + 1]) in rel && w[i + 1] in Elems(w);
    }
  }

  /** Such a node starts dependency chains of every length. */
  lemma ReachingHasEveryChain(edges: map<Name, set<Name>>, n: Name, k: nat)
    requires ReachesCycle(GraphRel(edges), n)
    ensures HasChain(edges, n, k)
  {
    var rel := GraphRel(edges);
    var w, c :| Walk(rel, w) && w[0] == n && Cycle(rel, c) && c[0] == w[|w| - 1];
    var stuck := Elems(w) + Elems(c);
    forall a | a in stuck ensures a in edges && HasSuccIn(rel, stuck, a) {
      ReachingHasSucc(rel, w, c, a);
      assert HasSuccIn(rel, stuck, a);
    }
    CycleHasEveryChain(edges, stuck, n, k);
  }

  ghost predicate EdgesInside(edges: map<Name, set<Name>>) {
    forall a, b | a in edges && b in edges[a] :: b in edges
  }

  lemma StuckHasSucc(edges: map<Name, set<Name>>, k: nat, a: Name)
    requires Level(edges, k) == {} && EdgesInside(edges) && a in AtLeast(edges, k)
    ensures HasSuccIn(GraphRel(edges), AtLeast(edges, k), a)
  {
    SurvivesIff(edges, a, k);
    var b :| b in DepsIn(edges, a, AtLeast(edges, k));
    assert (a, b) in GraphRel(edges);
  }

  lemma StuckReaches(edges: map<Name, set<Name>>, k: nat, n: Name)
    requires Level(edges, k) == {} && EdgesInside(edges) && n in AtLeast(edges, k)
    ensures ReachesCycle(GraphRel(edges), n)
  {
    forall a | a in AtLeast(edges, k) ensures HasSuccIn(GraphRel(edges), AtLeast(edges, k), a) {
      StuckHasSucc(edges, k, a);
    }
    StuckReachesCycle(GraphRel(edges), AtLeast(edges, k), n);
  }

  /** When a round finds nothing, exactly the nodes that reach a cycle are left. */
  lemma StuckRemainderIsCyclic(edges: map<Name, set<Name>>, k: nat)
    requires Level(edges, k) == {} && EdgesInside(edges)
    ensures AtLeast(edges, k) == CycleBound(edges)
    ensures AtLeast(edges, k) != {} ==> !Acyclic(GraphRel(edges))
  {
    forall n | n in AtLeast(edges, k) ensures n in CycleBound(edges) { StuckReaches(edges, k, n); }
    forall n | n in CycleBound(edges) ensures n in AtLeast(edges, k) { ReachingHasEveryChain(edges, n, k); }
    if n :| n in AtLeast(edges, k) { AcyclicReachesNone(GraphRel(edges), n); }
  }

  // ---------------------------------------------------------------- the level sort

  /** Remaining dependency counts, as the reversed in-degrees of the program. */
  ghost predicate Degrees(edges: map<Name, set<Name>>, nodes: set<Name>, alive: set<Name>, deg: map<Name, int>) {
    deg.Keys == nodes && nodes <= edges.Keys && forall n | n in deg :: deg[n] == |DepsIn(edges, n, alive)|
  }

  /** The reversed edges: for each node, the nodes that depend on it. */
  method ReverseEdges(g: Graph) returns (revEdges: map<Name, set<Name>>, deg: map<Name, int>)
    requires Wellformed(g)
    ensures forall n | n in g.edges :: n in revEdges && revEdges[n] == Dependents(g.edges, n)
    ensures Degrees(g.edges, g.edges.Keys, g.edges.Keys, deg)
  {
    revEdges := map n | n in g.inDegree :: set a | a in g.edges && n in g.edges[a];
    deg := map n | n in g.inDegree :: |g.edges[n]|;
    forall n | n in g.edges ensures g.edges[n] == DepsIn(g.edges, n, g.edges.Keys) {}
  }

  /** Emitting n: it leaves deg, and its remaining dependents lose one dependency each. */
  method Emit(ghost edges: map<Name, set<Name>>, ghost nodes: set<Name>, ghost alive: set<Name>, n: Name,
              dependents: set<Name>, deg0: map<Name, int>) returns (deg: map<Name, int>)
    requires Degrees(edges, nodes, alive, deg0) && n in nodes && n in alive && dependents == Dependents(edges, n)
    ensures Degrees(edges, nodes - {n}, alive - {n}, deg)
  {
    deg := deg0 - {n};
    var todo := dependents;
    while todo != {}
      invariant todo <= dependents && deg.Keys == nodes - {n}
      invariant forall m | m in deg ::
        deg[m] == |DepsIn(edges, m, alive)| - if m in dependents - todo then 1 else 0
    {
      var to :| to in todo;
      if to in deg { deg := deg[to := deg[to] - 1]; }
      todo := todo - {to};
    }
    forall m | m in deg ensures deg[m] == |DepsIn(edges, m, alive - {n})| {
      LosesOne(edges, m, alive, n);
    }
  }

  lemma LosesOne(edges: map<Name, set<Name>>, m: Name, alive: set<Name>, n: Name)
    requires m in edges && n in alive
    ensures |DepsIn(edges, m, alive - {n})| == |DepsIn(edges, m, alive)| - if m in Dependents(edges, n) then 1 else 0
  {
    if m in Dependents(edges, n) {
      assert DepsIn(edges, m, alive) == DepsIn(edges, m, alive - {n}) + {n};
    } else {
      assert DepsIn(edges, m, alive) == DepsIn(edges, m, alive - {n});
    }
  }

  lemma NextOfLevel(nodes: set<Name>, level: seq<Name>, i: nat)
    requires i < |level| && Distinct(level) && Elems(level) <= nodes
    ensures level[i] in nodes - Elems(level[..i])
    ensures nodes - Elems(level[..i + 1]) == nodes - Elems(level[..i]) - {level[i]}
    ensures level[..i + 1] == level[..i] + [level[i]]
  {
    assert level[i] in Elems(level);
  }

  method EmitLevel(ghost edges: map<Name, set<Name>>, revEdges: map<Name, set<Name>>, level: seq<Name>,
                   ghost nodes: set<Name>, deg0: map<Name, int>, out0: seq<Name>)
    returns (deg: map<Name, int>, out: seq<Name>)
    requires Degrees(edges, nodes, nodes, deg0) && Distinct(level) && Elems(level) <= nodes
    requires forall n | n in edges :: n in revEdges && revEdges[n] == Dependents(edges, n)
    ensures Degrees(edges, nodes - Elems(level), nodes - Elems(level), deg)
    ensures out == out0 + level
  {
    deg, out := deg0, out0;
    ghost var left := nodes;
    for i := 0 to |level|
      invariant left == nodes - Elems(level[..i]) && Degrees(edges, left, left, deg)
      invariant out == out0 + level[..i]
    {
      NextOfLevel(nodes, level, i);
      deg := Emit(edges, left, left, level[i], revEdges[level[i]], deg);
      left := left - {level[i]};
      ConcatAssociative(out0, level[..i], [level[i]]);
      out := out + [level[i]];
    }
    assert level[..|level|] == level;
  }

  method ZeroDegree(deg: map<Name, int>) returns (level: seq<Name>)
    ensures level == SortedOf(set n | n in deg && deg[n] == 0)
  {
    level := [];
    var todo := deg.Keys;
    while todo != {}
      invariant todo <= deg.Keys && Distinct(level)
      invariant Elems(level) == set n | n in deg && n !in todo && deg[n] == 0
    {
      var n :| n in todo;
      if deg[n] == 0 {
        assert Elems(level + [n]) == Elems(level) + {n};
        assert n !in Elems(level);
        level := level + [n];
      }
      todo := todo - {n};
    }
    SortNamesLists(level);
    level := SortNames(level);
    ListingIs(level, set n | n in deg && deg[n] == 0);
  }

  ghost predicate SortInv(edges: map<Name, set<Name>>, k: nat, deg: map<Name, int>, out: seq<Name>) {
    && Degrees(edges, AtLeast(edges, k), AtLeast(edges, k), deg)
    && out == Levels(edges, k)
    && |out| + |AtLeast(edges, k)| == |edges|
  }

  lemma SortStarts(edges: map<Name, set<Name>>, deg: map<Name, int>)
    requires Degrees(edges, edges.Keys, edges.Keys, deg)
    ensures SortInv(edges, 0, deg, [])
  {
    assert AtLeast(edges, 0) == edges.Keys;
  }

  lemma NextRound(edges: map<Name, set<Name>>, k: nat, out: seq<Name>, level: seq<Name>, deg: map<Name, int>)
    requires out == Levels(edges, k) && |out| + |AtLeast(edges, k)| == |edges|
    requires level == SortedOf(Level(edges, k)) && level != []
    requires Degrees(edges, AtLeast(edges, k) - Elems(level), AtLeast(edges, k) - Elems(level), deg)
    ensures SortInv(edges, k + 1, deg, out + level)
    ensures |AtLeast(edges, k + 1)| < |AtLeast(edges, k)|
  {
    LevelSplits(edges, k);
    assert AtLeast(edges, k) - Elems(level) == AtLeast(edges, k + 1);
    DistinctSize(level);
  }

  lemma StuckRound(edges: map<Name, set<Name>>, k: nat, deg: map<Name, int>, out: seq<Name>)
    requires SortInv(edges, k, deg, out) && |out| < |edges| && SortedOf(Level(edges, k)) == [] && EdgesInside(edges)
    ensures !Acyclic(GraphRel(edges)) && deg.Keys == CycleBound(edges) && |deg| > 0
  {
    DistinctSize(SortedOf(Level(edges, k)));
    StuckRemainderIsCyclic(edges, k);
  }

  lemma SortEnds(edges: map<Name, set<Name>>, k: nat, deg: map<Name, int>, out: seq<Name>)
    requires SortInv(edges, k, deg, out) && |out| >= |edges|
    ensures Acyclic(GraphRel(edges)) && LevelOrder(edges, out)
  {
    assert AtLeast(edges, k) == {};
    forall c ensures !Cycle(GraphRel(edges), c) {
      if Cycle(GraphRel(edges), c) { RemainderOfCycle(edges, c, k); }
    }
    LevelsAreOrdered(edges, k);
  }

  method TopoSort(g: Graph) returns (r: SortResult)
    requires Wellformed(g)
    ensures r.DependencyCycle? <==> !Acyclic(GraphRel(g.edges))
    ensures r.Order? ==> LevelOrder(g.edges, r.order)
    ensures r.DependencyCycle? ==> r.remaining != [] && r.remaining == SortedOf(CycleBound(g.edges))
  {
    var revEdges, deg := ReverseEdges(g);
    var out: seq<Name> := [];
    ghost var k: nat := 0;
    SortStarts(g.edges, deg);
    assert |g.edges| == |g.edges.Keys| == |g.inDegree.Keys| == |g.inDegree|;
    while |out| < |g.inDegree|
      invariant SortInv(g.edges, k, deg, out)
      decreases |AtLeast(g.edges, k)|
    {
      var level := ZeroDegree(deg);
      LevelIsZeroDegree(g.edges, k, deg);
      if |level| == 0 {
        StuckRound(g.edges, k, deg, out);
        var rest := OrderedRepoNames(deg.Keys);
        DistinctSize(rest);
        return DependencyCycle(rest);
      }
      ghost var before := out;
      deg, out := EmitLevel(g.edges, revEdges, level, AtLeast(g.edges, k), deg, out);
      NextRound(g.edges, k, before, level, deg);
      k := k + 1;
    }
    SortEnds(g.edges, k, deg, out);
    return Order(out);
  }

  lemma LevelIsZeroDegree(edges: map<Name, set<Name>>, k: nat, deg: map<Name, int>)
    requires Degrees(edges, AtLeast(edges, k), AtLeast(edges, k), deg)
    requires forall a, b | a in edges && b in edges[a] :: b in edges
    ensures (set n | n in deg && deg[n] == 0) == Level(edges, k)
  {
    forall n | n in AtLeast(edges, k) ensures deg[n] == 0 <==> n in Level(edges, k) {
      SurvivesIff(edges, n, k);
    }
    forall n | n in Level(edges, k) ensures n in deg {}
  }

  // ---------------------------------------------------------------- foundation repos first

  predicate IsFoundation(repos: Repos, n: Name) {
    n in repos && repos[n].foundation
  }

  function Filtered(repos: Repos, order: seq<Name>, foundation: bool): seq<Name> {
    if order == [] then []
    else
      (if IsFoundation(repos, order[0]) == foundation then [order[0]] else [])
      + Filtered(repos, order[1..], foundation)
  }

  lemma FilteredNext(repos: Repos, order: seq<Name>, foundation: bool, i: nat)
    requires i < |order|
    ensures Filtered(repos, order[i..], foundation) ==
      (if IsFoundation(repos, order[i]) == foundation then [order[i]] else [])
      + Filtered(repos, order[i + 1..], foundation)
  {
    assert order[i..][1..] == order[i + 1..];
  }

  /** One of the two passes: append the repos of one kind, in order. */
  method Pass(repos: Repos, order: seq<Name>, foundation: bool, out0: seq<Name>) returns (out: seq<Name>)
    ensures out == out0 + Filtered(repos, order, foundation)
  {
    out := out0;
    assert order[0..] == order;
    for i := 0 to |order|
      invariant out + Filtered(repos, order[i..], foundation) == out0 + Filtered(repos, order, foundation)
    {
      FilteredNext(repos, order, foundation, i);
      ConcatAssociative(out, [order[i]], Filtered(repos, order[i + 1..], foundation));
      if IsFoundation(repos, order[i]) == foundation { out := out + [order[i]]; }
    }
  }

  method FoundationFirst(repos: Repos, order: seq<Name>) returns (out: seq<Name>)
    ensures out == Filtered(repos, order, true) + Filtered(repos, order, false)
  {
    out := Pass(repos, order, true, []);
    out := Pass(repos, order, false, out);
  }

  lemma {:induction false} FilteredKeeps(repos: Repos, order: seq<Name>, foundation: bool)
    requires Distinct(order)
    ensures var f := Filtered(repos, order, foundation);
      Distinct(f) && forall x :: x in f <==> x in order && IsFoundation(repos, x) == foundation
  {
    if order != [] {
      FilteredKeeps(repos, order[1..], foundation);
      assert order == [order[0]] + order[1..];
    }
  }

  lemma {:induction false} FilteredInOrder(repos: Repos, order: seq<Name>, foundation: bool, a: Name, b: Name)
    requires Distinct(order) && Before(order, a, b)
    requires IsFoundation(repos, a) == IsFoundation(repos, b) == foundation
    ensures Before(Filtered(repos, order, foundation), a, b)
  {
    var i, j :| 0 <= i < j < |order| && order[i] == a && order[j] == b;
    var f, rest := Filtered(repos, order, foundation), Filtered(repos, order[1..], foundation);
    FilteredKeeps(repos, order[1..], foundation);
    if i == 0 {
      assert b == order[1..][j - 1];
      FirstIsBefore(a, rest, b);
      assert f == [a] + rest;
    } else {
      assert order[1..][i - 1] == a && order[1..][j - 1] == b;
      FilteredInOrder(repos, order[1..], foundation, a, b);
      BeforeBehind(order[0], rest, a, b);
      assert f == rest || f == [order[0]] + rest;
    }
  }

  lemma FirstIsBefore(a: Name, rest: seq<Name>, b: Name)
    requires b in rest
    ensures Before([a] + rest, a, b)
  {
    var q :| 0 <= q < |rest| && rest[q] == b;
    assert ([a] + rest)[0] == a && ([a] + rest)[q + 1] == b;
  }

  lemma BeforeBehind(x: Name, rest: seq<Name>, a: Name, b: Name)
    requires Before(rest, a, b)
    ensures Before([x] + rest, a, b)
  {
    var p, q :| 0 <= p < q < |rest| && rest[p] == a && rest[q] == b;
    assert ([x] + rest)[p + 1] == a && ([x] + rest)[q + 1] == b;
  }

  /** A node is never listed before its dependencies: their chains are shorter. */
  lemma DependencyIsLower(edges: map<Name, set<Name>>, a: Name, b: Name)
    requires a in edges && b in edges[a]
    ensures !ByLevelThenName(edges, a, b)
  {
    forall p: nat, q: nat | LongestChain(edges, a, p) && LongestChain(edges, b, q) ensures q < p {
      assert HasChain(edges, a, q + 1);
      if p <= q { ChainLonger(edges, a, p + 1, q + 1); }
    }
  }

  /** Level order puts every dependency before its dependent. */
  lemma LevelOrderRespectsEdges(edges: map<Name, set<Name>>, order: seq<Name>, a: Name, b: Name)
    requires LevelOrder(edges, order) && a in edges && b in edges[a] && b in edges && a != b
    ensures Before(order, b, a)
  {
    DependencyIsLower(edges, a, b);
    assert a in Elems(order) && b in Elems(order);
    var i :| 0 <= i < |order| && order[i] == a;
    var j :| 0 <= j < |order| && order[j] == b;
  }

  lemma BeforeInConcat(s: seq<Name>, t: seq<Name>, a: Name, b: Name)
    ensures Before(s, a, b) ==> Before(s + t, a, b)
    ensures Before(t, a, b) ==> Before(s + t, a, b)
    ensures a in s && b in t ==> Before(s + t, a, b)
  {
    if Before(s, a, b) {
      var i, j :| 0 <= i < j < |s| && s[i] == a && s[j] == b;
      assert (s + t)[i] == a && (s + t)[j] == b;
    }
    if Before(t, a, b) {
      var i, j :| 0 <= i < j < |t| && t[i] == a && t[j] == b;
      assert (s + t)[|s| + i] == a && (s + t)[|s| + j] == b;
    }
    if a in s && b in t {
      var i :| 0 <= i < |s| && s[i] == a;
      var j :| 0 <= j < |t| && t[j] == b;
      assert (s + t)[i] == a && (s + t)[|s| + j] == b;
    }
  }

  /** Foundation repos first, applied to a successful level sort of the same edges, is again an order
      of the relation that drives push and land. */
  lemma FoundationFirstIsFoundationOrder(repos: Repos, edges: seq<LockEdge>, g: Graph, order: seq<Name>)
    requires LevelOrder(g.edges, order) && g.edges.Keys == repos.Keys && EndpointsIn(edges, repos.Keys)
    requires GraphRel(g.edges) == EdgeRel(edges) && forall a | a in g.edges :: a !in g.edges[a]
    ensures FoundationOrder(repos, edges, Filtered(repos, order, true) + Filtered(repos, order, false))
  {
    var s, t := Filtered(repos, order, true), Filtered(repos, order, false);
    FilteredKeeps(repos, order, true);
    FilteredKeeps(repos, order, false);
    DistinctConcat(s, t);
    forall x ensures x in Elems(s + t) <==> x in repos.Keys { assert x in order <==> x in Elems(order); }
    forall f, k | f in Foundation(repos) && k in repos && k !in Foundation(repos) ensures Before(s + t, f, k) {
      assert f in Elems(order) && k in Elems(order);
      BeforeInConcat(s, t, f, k);
    }
    forall e | e in edges && (e.consumer in Foundation(repos) ==> e.target in Foundation(repos))
      ensures Before(s + t, e.target, e.consumer)
    {
      assert (e.consumer, e.target) in GraphRel(g.edges);
      LevelOrderRespectsEdges(g.edges, order, e.consumer, e.target);
      BeforeInConcat(s, t, e.target, e.consumer);
      assert e.target in Elems(order) && e.consumer in Elems(order);
      if IsFoundation(repos, e.consumer) == IsFoundation(repos, e.target) {
        FilteredInOrder(repos, order, IsFoundation(repos, e.consumer), e.target, e.consumer);
      }
    }
  }
}
