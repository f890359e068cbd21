/**
 From declared flake inputs to the workspace edge list and its order.

 URL canonicalisation is a parameter: canon is any function from URLs to canonical URLs, the empty
 string meaning that the URL names no repository.
 */
module Edges {
  import opened Names
  import opened Digraph
  import opened Dag

  // urls: the display URL followed by the mirror URLs.
  datatype RepoConfig = RepoConfig(urls: seq<string>, foundation: bool)
  datatype InputSpec = InputSpec(url: string, flake: bool)
  datatype LockEdge = LockEdge(consumer: Name, alias: Name, target: Name)
  datatype Result<T> = Ok(value: T) | DuplicateRemoteUrl(first: Name, second: Name, url: string)

  type Repos = map<Name, RepoConfig>
  type Inputs = map<Name, map<Name, InputSpec>>

  function CanonOf(canon: string -> string, url: string): string {
    if url == "" then "" else canon(url)
  }

  /** Repository k lists a URL whose canonical form is c. */
  ghost predicate Claims(repos: Repos, canon: string -> string, c: string, k: Name) {
    k in repos && c != "" && exists u :: u in repos[k].urls && CanonOf(canon, u) == c
  }

  ghost predicate UniqueClaims(repos: Repos, canon: string -> string) {
    forall c, k, k' :: Claims(repos, canon, c, k) && Claims(repos, canon, c, k') ==> k == k'
  }

  /** The flake inputs that become edges. */
  ghost predicate IsEdge(repos: Repos, inputs: Inputs, canon: string -> string, e: LockEdge) {
    && e.consumer in repos && e.consumer in inputs && e.alias in inputs[e.consumer]
    && inputs[e.consumer][e.alias].flake
    && Claims(repos, canon, CanonOf(canon, inputs[e.consumer][e.alias].url), e.target)
    && e.target != e.consumer
  }

  predicate Lt(a: Name, b: Name) {
    Le(a, b) && a != b
  }

  predicate KeyLt(a: LockEdge, b: LockEdge) {
    Lt(a.consumer, b.consumer) || (a.consumer == b.consumer && Lt(a.alias, b.alias))
  }

  ghost predicate StrictlySorted(edges: seq<LockEdge>) {
    forall i, j | 0 <= i < j < |edges| :: KeyLt(edges[i], edges[j])
  }

  // ---------------------------------------------------------------- dependency maps

  ghost function Targets(edges: seq<LockEdge>, k: Name): set<Name> {
    set e | e in edges && e.consumer == k :: e.target
  }

  /** A dependency map lists each non-empty set in order and leaves the others out. */
  ghost function DepMap(waits: map<Name, set<Name>>): Deps {
    map k | k in waits && waits[k] != {} :: SortedOf(waits[k])
  }

  lemma DepMapUpdate(waits: map<Name, set<Name>>, k: Name, S: set<Name>)
    ensures DepMap(waits[k := S]) == if S == {} then DepMap(waits) - {k} else DepMap(waits)[k := SortedOf(S)]
  {
    SameMap(DepMap(waits[k := S]), if S == {} then DepMap(waits) - {k} else DepMap(waits)[k := SortedOf(S)]);
  }

  ghost function TargetMap(edges: seq<LockEdge>, keys: set<Name>): map<Name, set<Name>> {
    map k | k in keys :: Targets(edges, k)
  }

  ghost function DependsOn(edges: seq<LockEdge>, keys: set<Name>): Deps {
    DepMap(TargetMap(edges, keys))
  }

  ghost function Foundation(repos: Repos): set<Name> {
    set k | k in repos && repos[k].foundation
  }

  /** What the foundation rule makes k wait for. */
  ghost function WaitsFor(repos: Repos, edges: seq<LockEdge>, k: Name): set<Name> {
    if k in Foundation(repos) then Targets(edges, k) * Foundation(repos)
    else Targets(edges, k) + Foundation(repos)
  }

  ghost function OrderingDeps(repos: Repos, edges: seq<LockEdge>): Deps {
    DepMap(map k | k in repos :: WaitsFor(repos, edges, k))
  }

  ghost predicate EndpointsIn(edges: seq<LockEdge>, keys: set<Name>) {
    forall e | e in edges :: e.consumer in keys && e.target in keys
  }

  // ---------------------------------------------------------------- the foundation rule

  ghost function EdgeRel(edges: seq<LockEdge>): Rel {
    set e | e in edges :: (e.consumer, e.target)
  }

  /** The edges the order can honour: all but those from a foundation repo to another kind of repo. */
  ghost function HonouredRel(repos: Repos, edges: seq<LockEdge>): Rel {
    set e | e in edges && (e.consumer in Foundation(repos) ==> e.target in Foundation(repos)) :: (e.consumer, e.target)
  }

  lemma WaitsForIsRelation(repos: Repos, edges: seq<LockEdge>, a: Name, b: Name)
    ensures (a, b) in RelOf(OrderingDeps(repos, edges)) <==> a in repos && b in WaitsFor(repos, edges, a)
    ensures b in DepsOf(OrderingDeps(repos, edges), a) <==> a in repos && b in WaitsFor(repos, edges, a)
  {
    var d := OrderingDeps(repos, edges);
    if a in d {
      assert b in d[a] <==> b in Elems(d[a]);
    }
  }

  lemma OrderingOver(repos: Repos, edges: seq<LockEdge>)
    requires EndpointsIn(edges, repos.Keys)
    ensures Over(RelOf(OrderingDeps(repos, edges)), repos.Keys)
  {
    forall e | e in RelOf(OrderingDeps(repos, edges)) ensures e.0 in repos.Keys && e.1 in repos.Keys {
      WaitsForIsRelation(repos, edges, e.0, e.1);
    }
  }

  lemma FoundationIsClosed(repos: Repos, edges: seq<LockEdge>)
    ensures Closed(RelOf(OrderingDeps(repos, edges)), Foundation(repos))
  {
    forall e | e in RelOf(OrderingDeps(repos, edges)) && e.0 in Foundation(repos) ensures e.1 in Foundation(repos) {
      WaitsForIsRelation(repos, edges, e.0, e.1);
    }
  }

  /** A cycle of the ordering relation stays on one side of the foundation boundary. */
  lemma CycleIsHonoured(repos: Repos, edges: seq<LockEdge>, w: seq<Name>)
    requires Cycle(RelOf(OrderingDeps(repos, edges)), w)
    ensures Cycle(HonouredRel(repos, edges), w)
  {
    var f := Foundation(repos);
    FoundationIsClosed(repos, edges);
    WalkInClosedSet(RelOf(OrderingDeps(repos, edges)), f, w);
    forall i | 0 <= i < |w| - 1 ensures (w[i], w[i + 1]) in HonouredRel(repos, edges) {
      WaitsForIsRelation(repos, edges, w[i], w[i + 1]);
      assert w[i] in Elems(w) && w[i + 1] in Elems(w);
      assert w[i + 1] in Targets(edges, w[i]);
    }
  }

  /** The order exists without leftovers exactly when the honoured edges have no cycle. */
  lemma OrderingAcyclicIff(repos: Repos, edges: seq<LockEdge>)
    requires EndpointsIn(edges, repos.Keys)
    ensures Acyclic(RelOf(OrderingDeps(repos, edges))) <==> Acyclic(HonouredRel(repos, edges))
    ensures Acyclic(EdgeRel(edges)) ==> Acyclic(RelOf(OrderingDeps(repos, edges)))
  {
    var rel, hon := RelOf(OrderingDeps(repos, edges)), HonouredRel(repos, edges);
    forall w | Cycle(rel, w) ensures Cycle(hon, w) { CycleIsHonoured(repos, edges, w); }
    forall w | Cycle(hon, w) ensures Cycle(rel, w) && Cycle(EdgeRel(edges), w) {
      forall i | 0 <= i < |w| - 1
        ensures (w[i], w[i + 1]) in rel && (w[i], w[i + 1]) in EdgeRel(edges)
      {
        assert (w[i], w[i + 1]) in hon;
        var e :| e in edges && e.consumer == w[i] && e.target == w[i + 1]
          && (e.consumer in Foundation(repos) ==> e.target in Foundation(repos));
        assert w[i + 1] in Targets(edges, w[i]);
        WaitsForIsRelation(repos, edges, w[i], w[i + 1]);
      }
    }
  }

  /** order lists a before b. */
  ghost predicate Before(order: seq<Name>, a: Name, b: Name) {
    exists i, j :: 0 <= i < j < |order| && order[i] == a && order[j] == b
  }

  ghost predicate FoundationOrder(repos: Repos, edges: seq<LockEdge>, order: seq<Name>) {
    && Distinct(order) && Elems(order) == repos.Keys
    && (forall f, k | f in Foundation(repos) && k in repos && k !in Foundation(repos) :: Before(order, f, k))
    && (forall e | e in edges && (e.consumer in Foundation(repos) ==> e.target in Foundation(repos)) ::
          Before(order, e.target, e.consumer))
  }

  lemma RespectsIsBefore(order: seq<Name>, d: Deps, a: Name, b: Name)
    requires RespectsDeps(order, d) && a in DepsOf(d, b) && b in order
    ensures Before(order, a, b)
  {
    var j :| 0 <= j < |order| && order[j] == b;
    assert a in order[..j];
    var i :| 0 <= i < |order[..j]| && order[..j][i] == a;
    assert order[i] == a;
  }

  /** The foundation rule: the order puts foundation repos first and respects every honoured edge if and
      only if the honoured edges have no cycle. */
  lemma FoundationRule(repos: Repos, edges: seq<LockEdge>)
    requires EndpointsIn(edges, repos.Keys)
    ensures FoundationOrder(repos, edges, TopoOrder(repos.Keys, OrderingDeps(repos, edges)))
      <==> Acyclic(HonouredRel(repos, edges))
  {
    var d := OrderingDeps(repos, edges);
    var order := TopoOrder(repos.Keys, d);
    if Acyclic(HonouredRel(repos, edges)) {
      OrderingAcyclicIff(repos, edges);
      OrderingOver(repos, edges);
      AcyclicOrderRespectsDeps(repos.Keys, d);
      TopoOrderIsPermutation(repos.Keys, d);
      RespectingOrderIsFoundationOrder(repos, edges, order);
    }
    if FoundationOrder(repos, edges, order) { FoundationOrderIsAcyclic(repos, edges, order); }
  }

  /** With a cycle among the honoured edges no order at all obeys the rule. */
  lemma FoundationOrderIsAcyclic(repos: Repos, edges: seq<LockEdge>, order: seq<Name>)
    requires FoundationOrder(repos, edges, order)
    ensures Acyclic(HonouredRel(repos, edges))
  {
    var rel, rank := HonouredRel(repos, edges), Positions(order);
    forall e | e in rel ensures e.0 in rank && e.1 in rank && rank[e.1] < rank[e.0] {
      assert Before(order, e.1, e.0);
    }
    forall c ensures !Cycle(rel, c) {
      if Cycle(rel, c) {
        assert (c[0], c[1]) in rel;
        RanksDecrease(rel, rank, c);
      }
    }
  }

  lemma RespectingOrderIsFoundationOrder(repos: Repos, edges: seq<LockEdge>, order: seq<Name>)
    requires EndpointsIn(edges, repos.Keys)
    requires Distinct(order) && Elems(order) == repos.Keys && RespectsDeps(order, OrderingDeps(repos, edges))
    ensures FoundationOrder(repos, edges, order)
  {
    var d := OrderingDeps(repos, edges);
    forall f, k | f in Foundation(repos) && k in repos && k !in Foundation(repos) ensures Before(order, f, k) {
      WaitsForIsRelation(repos, edges, k, f);
      assert k in Elems(order);
      RespectsIsBefore(order, d, f, k);
    }
    forall e | e in edges && (e.consumer in Foundation(repos) ==> e.target in Foundation(repos))
      ensures Before(order, e.target, e.consumer)
    {
      assert e.target in Targets(edges, e.consumer);
      WaitsForIsRelation(repos, edges, e.consumer, e.target);
      assert e.consumer in Elems(order);
      RespectsIsBefore(order, d, e.target, e.consumer);
    }
  }

  // ---------------------------------------------------------------- the program

  /** The keys of a map, collected in whatever order it yields them, then sorted. */
  method OrderedRepoNames(keys: set<Name>) returns (names: seq<Name>)
    ensures names == SortedOf(keys)
  {
    names := [];
    var todo := keys;
    while todo != {}
      invariant todo <= keys && Distinct(names) && Elems(names) == keys - todo
    {
      var k :| k in todo;
      assert Elems(names + [k]) == Elems(names) + {k};
      assert k !in Elems(names);
      names := names + [k];
      todo := todo - {k};
    }
    SortNamesLists(names);
    names := SortNames(names);
    ListingIs(names, keys);
  }

  ghost predicate Indexed(repos: Repos, canon: string -> string, byCanon: map<string, Name>, k: Name, n: nat)
    requires k in repos && n <= |repos[k].urls|
  {
    forall j | 0 <= j < n && CanonOf(canon, repos[k].urls[j]) != "" ::
      CanonOf(canon, repos[k].urls[j]) in byCanon && byCanon[CanonOf(canon, repos[k].urls[j])] == k
  }

  ghost predicate OwnersClaim(repos: Repos, canon: string -> string, byCanon: map<string, Name>) {
    forall c | c in byCanon :: Claims(repos, canon, c, byCanon[c])
  }

  lemma IndexIsClaims(repos: Repos, canon: string -> string, byCanon: map<string, Name>)
    requires OwnersClaim(repos, canon, byCanon)
    requires forall k | k in repos :: Indexed(repos, canon, byCanon, k, |repos[k].urls|)
    ensures UniqueClaims(repos, canon)
    ensures forall c, k :: Claims(repos, canon, c, k) <==> c in byCanon && byCanon[c] == k
  {
    forall c, k | Claims(repos, canon, c, k) ensures c in byCanon && byCanon[c] == k {
      var u :| u in repos[k].urls && CanonOf(canon, u) == c;
      var j :| 0 <= j < |repos[k].urls| && repos[k].urls[j] == u;
      assert Indexed(repos, canon, byCanon, k, |repos[k].urls|);
    }
  }

  /** Canonical URL to repository, over every display and mirror URL. */
  method IndexUrls(repos: Repos, repoKeys: seq<Name>, canon: string -> string) returns (r: Result<map<string, Name>>)
    requires Elems(repoKeys) == repos.Keys
    ensures r.Ok? <==> UniqueClaims(repos, canon)
    ensures r.Ok? ==> forall c, k :: Claims(repos, canon, c, k) <==> c in r.value && r.value[c] == k
    ensures r.DuplicateRemoteUrl? ==>
      r.first != r.second && Claims(repos, canon, r.url, r.first) && Claims(repos, canon, r.url, r.second)
  {
    var byCanon: map<string, Name> := map[];
    for i := 0 to |repoKeys|
      invariant OwnersClaim(repos, canon, byCanon)
      invariant forall h | 0 <= h < i ::
        repoKeys[h] in repos && Indexed(repos, canon, byCanon, repoKeys[h], |repos[repoKeys[h]].urls|)
    {
      var key := repoKeys[i];
      assert key in Elems(repoKeys);
      var urls := repos[key].urls;
      for j := 0 to |urls|
        invariant OwnersClaim(repos, canon, byCanon)
        invariant Indexed(repos, canon, byCanon, key, j)
        invariant forall h | 0 <= h < i ::
          repoKeys[h] in repos && Indexed(repos, canon, byCanon, repoKeys[h], |repos[repoKeys[h]].urls|)
      {
        var c := CanonOf(canon, urls[j]);
        if c != "" {
          assert Claims(repos, canon, c, key) by { assert urls[j] in repos[key].urls; }
          if c in byCanon && byCanon[c] != key {
            return DuplicateRemoteUrl(byCanon[c], key, c);
          }
          byCanon := byCanon[c := key];
        }
      }
    }
    forall k | k in repos ensures Indexed(repos, canon, byCanon, k, |repos[k].urls|) {
      assert k in Elems(repoKeys);
      var h :| 0 <= h < |repoKeys| && repoKeys[h] == k;
    }
    IndexIsClaims(repos, canon, byCanon);
    return Ok(byCanon);
  }

  ghost predicate Collected(
    repos: Repos, inputs: Inputs, canon: string -> string, consumers: seq<Name>, edges: seq<LockEdge>)
  {
    StrictlySorted(edges) && forall e :: e in edges <==> IsEdge(repos, inputs, canon, e) && e.consumer in consumers
  }

  ghost predicate CollectedFor(
    repos: Repos, inputs: Inputs, canon: string -> string, consumer: Name, aliases: seq<Name>, edges: seq<LockEdge>)
  {
    StrictlySorted(edges) &&
    forall e :: e in edges <==> IsEdge(repos, inputs, canon, e) && e.consumer == consumer && e.alias in aliases
  }

  lemma AppendSorted(a: seq<LockEdge>, b: seq<LockEdge>)
    requires StrictlySorted(a) && StrictlySorted(b) && forall x, y | x in a && y in b :: KeyLt(x, y)
    ensures StrictlySorted(a + b)
  {
  }

  lemma SortedLater(s: seq<Name>, i: nat, x: Name)
    requires Sorted(Le, s) && Distinct(s) && i < |s| && x in s[..i]
    ensures Lt(x, s[i])
  {
    var h :| 0 <= h < i && s[h] == x;
  }

  /** The edges of one consumer, in alias order. */
  method EdgesOf(repos: Repos, inputs: Inputs, canon: string -> string, byCanon: map<string, Name>, consumer: Name)
    returns (edges: seq<LockEdge>)
    requires consumer in repos
    requires forall c, k :: Claims(repos, canon, c, k) <==> c in byCanon && byCanon[c] == k
    ensures consumer in inputs ==> CollectedFor(repos, inputs, canon, consumer, SortedOf(inputs[consumer].Keys), edges)
    ensures consumer !in inputs ==> edges == []
  {
    edges := [];
    if consumer !in inputs { return; }
    var specs := inputs[consumer];
    var aliases := OrderedRepoNames(specs.Keys);
    for j := 0 to |aliases|
      invariant CollectedFor(repos, inputs, canon, consumer, aliases[..j], edges)
    {
      var alias := aliases[j];
      assert alias in Elems(aliases);
      var c := CanonOf(canon, specs[alias].url);
      NextAlias(repos, inputs, canon, byCanon, consumer, aliases, j, edges);
      if specs[alias].flake && c != "" && c in byCanon && byCanon[c] != consumer {
        edges := edges + [LockEdge(consumer, alias, byCanon[c])];
      }
    }
    assert aliases[..|aliases|] == aliases;
  }

  ghost function EdgeAt(
    inputs: Inputs, canon: string -> string, byCanon: map<string, Name>, consumer: Name, alias: Name)
    : seq<LockEdge>
    requires consumer in inputs && alias in inputs[consumer]
  {
    var c := CanonOf(canon, inputs[consumer][alias].url);
    if inputs[consumer][alias].flake && c != "" && c in byCanon && byCanon[c] != consumer
    then [LockEdge(consumer, alias, byCanon[c])] else []
  }

  lemma EdgeAtIsEdge(repos: Repos, inputs: Inputs, canon: string -> string, byCanon: map<string, Name>,
                     consumer: Name, alias: Name, e: LockEdge)
    requires consumer in repos && consumer in inputs && alias in inputs[consumer]
    requires forall c, k :: Claims(repos, canon, c, k) <==> c in byCanon && byCanon[c] == k
    ensures e in EdgeAt(inputs, canon, byCanon, consumer, alias) <==>
      IsEdge(repos, inputs, canon, e) && e.consumer == consumer && e.alias == alias
  {
    var c := CanonOf(canon, inputs[consumer][alias].url);
    assert Claims(repos, canon, c, e.target) <==> c in byCanon && byCanon[c] == e.target;
    assert Claims(repos, canon, c, e.target) ==> c != "";
  }

  lemma NextAlias(repos: Repos, inputs: Inputs, canon: string -> string, byCanon: map<string, Name>,
                  consumer: Name, aliases: seq<Name>, j: nat, edges: seq<LockEdge>)
    requires consumer in repos && consumer in inputs && j < |aliases| && aliases[j] in inputs[consumer]
    requires Sorted(Le, aliases) && Distinct(aliases)
    requires forall c, k :: Claims(repos, canon, c, k) <==> c in byCanon && byCanon[c] == k
    requires CollectedFor(repos, inputs, canon, consumer, aliases[..j], edges)
    ensures CollectedFor(repos, inputs, canon, consumer, aliases[..j + 1],
                         edges + EdgeAt(inputs, canon, byCanon, consumer, aliases[j]))
  {
    var own := EdgeAt(inputs, canon, byCanon, consumer, aliases[j]);
    assert aliases[..j + 1] == aliases[..j] + [aliases[j]];
    forall x, y | x in edges && y in own ensures KeyLt(x, y) { SortedLater(aliases, j, x.alias); }
    AppendSorted(edges, own);
    forall e ensures e in own <==> IsEdge(repos, inputs, canon, e) && e.consumer == consumer && e.alias == aliases[j] {
      EdgeAtIsEdge(repos, inputs, canon, byCanon, consumer, aliases[j], e);
    }
  }

  method CollectEdges(
    repos: Repos, inputs: Inputs, canon: string -> string, repoKeys: seq<Name>, byCanon: map<string, Name>)
    returns (edges: seq<LockEdge>)
    requires Listing(repoKeys, repos.Keys)
    requires forall c, k :: Claims(repos, canon, c, k) <==> c in byCanon && byCanon[c] == k
    ensures Collected(repos, inputs, canon, repoKeys, edges)
  {
    edges := [];
    for i := 0 to |repoKeys|
      invariant Collected(repos, inputs, canon, repoKeys[..i], edges)
    {
      var consumer := repoKeys[i];
      assert consumer in Elems(repoKeys);
      var own := EdgesOf(repos, inputs, canon, byCanon, consumer);
      assert repoKeys[..i + 1] == repoKeys[..i] + [consumer];
      NextConsumer(repos, inputs, canon, repoKeys, i, edges, own);
      edges := edges + own;
    }
    assert repoKeys[..|repoKeys|] == repoKeys;
  }

  lemma NextConsumer(repos: Repos, inputs: Inputs, canon: string -> string, repoKeys: seq<Name>, i: nat,
                     edges: seq<LockEdge>, own: seq<LockEdge>)
    requires i < |repoKeys| && Sorted(Le, repoKeys) && Distinct(repoKeys)
    requires Collected(repos, inputs, canon, repoKeys[..i], edges)
    requires repoKeys[i] in inputs ==>
      CollectedFor(repos, inputs, canon, repoKeys[i], SortedOf(inputs[repoKeys[i]].Keys), own)
    requires repoKeys[i] !in inputs ==> own == []
    ensures Collected(repos, inputs, canon, repoKeys[..i + 1], edges + own)
  {
    var consumer := repoKeys[i];
    assert repoKeys[..i + 1] == repoKeys[..i] + [consumer];
    forall x, y | x in edges && y in own ensures KeyLt(x, y) { SortedLater(repoKeys, i, x.consumer); }
    AppendSorted(edges, own);
    forall e ensures e in own <==> IsEdge(repos, inputs, canon, e) && e.consumer == consumer {
      if consumer in inputs {
        assert e.alias in SortedOf(inputs[consumer].Keys) <==> e.alias in Elems(SortedOf(inputs[consumer].Keys));
      }
    }
  }

  method CollectTargets(edges: seq<LockEdge>, repoKeys: seq<Name>) returns (depSet: map<Name, set<Name>>)
    requires forall e | e in edges :: e.consumer in repoKeys
    ensures depSet == TargetMap(edges, Elems(repoKeys))
  {
    depSet := map k | k in repoKeys :: {};
    forall k ensures Targets(edges[..0], k) == {} {}
    SameMap(depSet, TargetMap(edges[..0], Elems(repoKeys)));
    for i := 0 to |edges|
      invariant depSet == TargetMap(edges[..i], Elems(repoKeys))
    {
      assert edges[i] in edges;
      assert edges[..i + 1] == edges[..i] + [edges[i]];
      TargetMapAppend(edges[..i], edges[i], Elems(repoKeys));
      depSet := depSet[edges[i].consumer := depSet[edges[i].consumer] + {edges[i].target}];
    }
    assert edges[..|edges|] == edges;
  }

  lemma TargetMapAppend(edges: seq<LockEdge>, e: LockEdge, keys: set<Name>)
    requires e.consumer in keys
    ensures TargetMap(edges + [e], keys) ==
      TargetMap(edges, keys)[e.consumer := Targets(edges, e.consumer) + {e.target}]
  {
    var after := TargetMap(edges, keys)[e.consumer := Targets(edges, e.consumer) + {e.target}];
    forall k | k in keys ensures TargetMap(edges + [e], keys)[k] == after[k] {
      TargetsAppend(edges, e, k);
    }
    SameMap(TargetMap(edges + [e], keys), after);
  }

  lemma TargetsAppend(edges: seq<LockEdge>, e: LockEdge, k: Name)
    ensures Targets(edges + [e], k) == Targets(edges, k) + if k == e.consumer then {e.target} else {}
  {
    var s := edges + [e];
    forall t | t in Targets(edges, k) ensures t in Targets(s, k) {
      var x :| x in edges && x.consumer == k && x.target == t;
      assert x in s;
    }
    if k == e.consumer { assert e in s; }
  }

  method EdgesToDependsOn(edges: seq<LockEdge>, repoKeys: seq<Name>) returns (dependsOn: Deps)
    requires forall e | e in edges :: e.consumer in repoKeys
    ensures dependsOn == DependsOn(edges, Elems(repoKeys))
  {
    var depSet := CollectTargets(edges, repoKeys);
    dependsOn := map[];
    var todo := depSet.Keys;
    ghost var listed: map<Name, set<Name>> := map[];
    while todo != {}
      invariant todo <= depSet.Keys && listed == depSet - todo
      invariant dependsOn == DepMap(listed)
    {
      var key :| key in todo;
      DepMapUpdate(listed, key, depSet[key]);
      if depSet[key] != {} {
        var deps := OrderedRepoNames(depSet[key]);
        dependsOn := dependsOn[key := deps];
      }
      todo := todo - {key};
      listed := listed[key := depSet[key]];
    }
    SameMap(listed, depSet);
  }

  ghost function FoundationIn(repos: Repos, keys: seq<Name>): set<Name> {
    set k | k in keys && k in repos && repos[k].foundation
  }

  method FoundationKeys(repos: Repos, repoKeys: seq<Name>) returns (foundationKeys: seq<Name>)
    requires Listing(repoKeys, repos.Keys)
    ensures Distinct(foundationKeys) && Elems(foundationKeys) == Foundation(repos)
  {
    foundationKeys := [];
    for i := 0 to |repoKeys|
      invariant Distinct(foundationKeys) && Elems(foundationKeys) == FoundationIn(repos, repoKeys[..i])
    {
      assert repoKeys[i] in Elems(repoKeys);
      assert repoKeys[..i + 1] == repoKeys[..i] + [repoKeys[i]];
      if repos[repoKeys[i]].foundation {
        assert repoKeys[i] !in Elems(foundationKeys);
        assert Elems(foundationKeys + [repoKeys[i]]) == Elems(foundationKeys) + {repoKeys[i]};
        foundationKeys := foundationKeys + [repoKeys[i]];
      }
    }
    assert repoKeys[..|repoKeys|] == repoKeys;
    forall k ensures k in FoundationIn(repos, repoKeys) <==> k in Foundation(repos) {
      assert k in repoKeys <==> k in Elems(repoKeys);
    }
  }

  method OrderDeps(repos: Repos, edges: seq<LockEdge>, repoKeys: seq<Name>) returns (dependsOn: Deps)
    requires Listing(repoKeys, repos.Keys) && EndpointsIn(edges, repos.Keys)
    ensures dependsOn == OrderingDeps(repos, edges)
  {
    forall e | e in edges ensures e.consumer in repoKeys { assert e.consumer in Elems(repoKeys); }
    dependsOn := EdgesToDependsOn(edges, repoKeys);
    var foundationKeys := FoundationKeys(repos, repoKeys);
    StageEnds(repos, edges, repoKeys);
    if |foundationKeys| == 0 {
      NoFoundation(repos, edges);
      return;
    }
    dependsOn := RewriteAll(repos, edges, repoKeys, foundationKeys, dependsOn);
  }

  /** Apply the rule to one repo after the other. */
  method RewriteAll(repos: Repos, ghost edges: seq<LockEdge>, repoKeys: seq<Name>, foundationKeys: seq<Name>, d: Deps)
    returns (dependsOn: Deps)
    requires Distinct(repoKeys) && Elems(repoKeys) == repos.Keys
    requires Distinct(foundationKeys) && Elems(foundationKeys) == Foundation(repos) && |foundationKeys| > 0
    requires Staged(repos, edges, {}, d)
    ensures Staged(repos, edges, repos.Keys, dependsOn)
  {
    dependsOn := d;
    ghost var done: set<Name> := {};
    for i := 0 to |repoKeys|
      invariant done == Elems(repoKeys[..i]) && Staged(repos, edges, done, dependsOn)
    {
      PrefixElems(repoKeys, i);
      NotYetListed(repoKeys, i);
      dependsOn := RewriteOne(repos, edges, foundationKeys, repoKeys[i], done, dependsOn);
      done := done + {repoKeys[i]};
    }
    assert repoKeys[..|repoKeys|] == repoKeys;
  }

  lemma NotYetListed(s: seq<Name>, i: nat)
    requires Distinct(s) && i < |s|
    ensures s[i] !in Elems(s[..i])
  {
  }

  /** d is the dependency map with the rule applied to the repos in done. */
  ghost predicate Staged(repos: Repos, edges: seq<LockEdge>, done: set<Name>, d: Deps) {
    d == DepMap(Stage(repos, edges, done))
  }

  /** What every repo waits for once the rule has been applied to the repos in done. */
  ghost function Stage(repos: Repos, edges: seq<LockEdge>, done: set<Name>): map<Name, set<Name>> {
    map k | k in repos :: if k in done then WaitsFor(repos, edges, k) else Targets(edges, k)
  }

  lemma StageEnds(repos: Repos, edges: seq<LockEdge>, repoKeys: seq<Name>)
    requires Elems(repoKeys) == repos.Keys
    ensures Stage(repos, edges, {}) == TargetMap(edges, Elems(repoKeys))
    ensures Stage(repos, edges, repos.Keys) == map k | k in repos :: WaitsFor(repos, edges, k)
  {
    SameMap(Stage(repos, edges, {}), TargetMap(edges, Elems(repoKeys)));
  }

  lemma NoFoundation(repos: Repos, edges: seq<LockEdge>)
    requires Foundation(repos) == {}
    ensures DependsOn(edges, repos.Keys) == OrderingDeps(repos, edges)
  {
    forall k ensures WaitsFor(repos, edges, k) == Targets(edges, k) {}
    SameMap(TargetMap(edges, repos.Keys), map k | k in repos :: WaitsFor(repos, edges, k));
  }

  method RewriteOne(repos: Repos, ghost edges: seq<LockEdge>, foundationKeys: seq<Name>, k: Name, ghost done: set<Name>,
                    dependsOn: Deps)
    returns (d: Deps)
    requires k in repos && k !in done && Elems(foundationKeys) == Foundation(repos) && |foundationKeys| > 0
    requires Distinct(foundationKeys) && Staged(repos, edges, done, dependsOn)
    ensures Staged(repos, edges, done + {k}, d)
  {
    DepMapUpdate(Stage(repos, edges, done), k, WaitsFor(repos, edges, k));
    SameMap(Stage(repos, edges, done + {k}), Stage(repos, edges, done)[k := WaitsFor(repos, edges, k)]);
    var deps := DepsOf(dependsOn, k);
    assert Listing(deps, Targets(edges, k));
    if repos[k].foundation {
      var keep := Kept(deps, foundationKeys);
      ListingIs(keep, WaitsFor(repos, edges, k));
      DistinctSize(keep);
      d := if |keep| == 0 then dependsOn - {k} else dependsOn[k := keep];
    } else {
      var all := WithFoundation(deps, foundationKeys);
      ListingIs(all, WaitsFor(repos, edges, k));
      assert foundationKeys[0] in Elems(foundationKeys);
      d := dependsOn[k := all];
    }
  }

  /** A foundation repo's remaining dependencies, still in order. */
  method Kept(deps: seq<Name>, foundationKeys: seq<Name>) returns (keep: seq<Name>)
    requires Sorted(Le, deps) && Distinct(deps)
    ensures Listing(keep, Elems(deps) * Elems(foundationKeys))
  {
    keep := [];
    for i := 0 to |deps|
      invariant Sorted(Le, keep) && Distinct(keep)
      invariant forall x :: x in keep <==> x in deps[..i] && x in foundationKeys
    {
      assert deps[..i + 1] == deps[..i] + [deps[i]];
      if deps[i] in foundationKeys {
        forall x | x in keep ensures Le(x, deps[i]) && x != deps[i] { SortedLater(deps, i, x); }
        keep := keep + [deps[i]];
      }
    }
    assert deps[..|deps|] == deps;
  }

  /** Another repo's dependencies with every missing foundation repo added. */
  method WithFoundation(deps: seq<Name>, foundationKeys: seq<Name>) returns (all: seq<Name>)
    requires Distinct(deps) && Distinct(foundationKeys)
    ensures Listing(all, Elems(deps) + Elems(foundationKeys))
  {
    all := deps;
    for i := 0 to |foundationKeys|
      invariant Distinct(all)
      invariant forall x :: x in all <==> x in deps || x in foundationKeys[..i]
    {
      assert foundationKeys[..i + 1] == foundationKeys[..i] + [foundationKeys[i]];
      if foundationKeys[i] !in deps {
        assert foundationKeys[i] !in foundationKeys[..i];
        all := all + [foundationKeys[i]];
      }
    }
    assert foundationKeys[..|foundationKeys|] == foundationKeys;
    SortNamesLists(all);
    assert Elems(all) == Elems(deps) + Elems(foundationKeys);
    all := SortNames(all);
  }

  method BuildEdges(repos: Repos, inputs: Inputs, canon: string -> string)
    returns (r: Result<(seq<LockEdge>, seq<Name>)>)
    ensures r.Ok? <==> UniqueClaims(repos, canon)
    ensures r.Ok? ==> StrictlySorted(r.value.0) && forall e :: e in r.value.0 <==> IsEdge(repos, inputs, canon, e)
    ensures r.Ok? ==> r.value.1 == TopoOrder(repos.Keys, OrderingDeps(repos, r.value.0))
    ensures r.DuplicateRemoteUrl? ==>
      r.first != r.second && Claims(repos, canon, r.url, r.first) && Claims(repos, canon, r.url, r.second)
  {
    var repoKeys := OrderedRepoNames(repos.Keys);
    var index := IndexUrls(repos, repoKeys, canon);
    if index.DuplicateRemoteUrl? {
      return DuplicateRemoteUrl(index.first, index.second, index.url);
    }
    var edges := CollectEdges(repos, inputs, canon, repoKeys, index.value);
    forall e ensures e in edges <==> IsEdge(repos, inputs, canon, e) {
      assert e.consumer in repoKeys <==> e.consumer in Elems(repoKeys);
    }
    assert EndpointsIn(edges, repos.Keys);
    var deps := OrderDeps(repos, edges, repoKeys);
    var order := TopoSortByDeps(repoKeys, deps);
    return Ok((edges, order));
  }
}
