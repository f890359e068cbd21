/**
 Which flake inputs a build takes from local clones: one resolution, the flags rendered from it, the
 record kept of it, and the hook installer that reads the flags back.
 */
module Overrides {
  import opened Basics
  import opened Names
  import opened Edges
  import opened LockFile

  const FLAG := "--override-input"
  const SCHEME := "git+file://"

  datatype Override = Override(alias: Name, target: Name, dir: string)

  /** A consumer and its options; clone is where a repository's clone lives by default, and the empty
      name excludes nothing. */
  datatype Setting = Setting(
    consumer: Name, exclude: Name, paths: map<Name, string>, clone: Name -> string, onDisk: string -> bool)

  function Url(o: Override): string {
    SCHEME + o.dir
  }

  function DirOf(s: Setting, target: Name): string {
    if target in s.paths then s.paths[target] else s.clone(target)
  }

  /** The edges that are overridden. */
  predicate Applies(s: Setting, e: LockEdge) {
    e.consumer == s.consumer && !(s.exclude != "" && e.target == s.exclude) && s.onDisk(DirOf(s, e.target))
  }

  function OverrideOf(s: Setting, e: LockEdge): Override {
    Override(e.alias, e.target, DirOf(s, e.target))
  }

  function Chosen(s: Setting, edges: seq<LockEdge>): seq<Override> {
    if edges == [] then []
    else
      var e := edges[|edges| - 1];
      Chosen(s, edges[..|edges| - 1]) + if Applies(s, e) then [OverrideOf(s, e)] else []
  }

  ghost predicate ByAlias(rs: seq<Override>) {
    forall i, j | 0 <= i < j < |rs| :: Le(rs[i].alias, rs[j].alias)
  }

  /** rs is the override set of the edges, in an order the library sort may give. */
  ghost predicate Resolution(s: Setting, edges: seq<LockEdge>, rs: seq<Override>) {
    ByAlias(rs) && multiset(rs) == multiset(Chosen(s, edges))
  }

  method ResolveOverrides(s: Setting, edges: seq<LockEdge>) returns (rs: seq<Override>)
    ensures Resolution(s, edges, rs)
  {
    var out: seq<Override> := [];
    for i := 0 to |edges|
      invariant out == Chosen(s, edges[..i])
    {
      PrefixNext(edges, i);
      var e := edges[i];
      assert edges[..i + 1][..i] == edges[..i];
      if e.consumer != s.consumer { continue; }
      if s.exclude != "" && e.target == s.exclude { continue; }
      var dir := s.clone(e.target);
      if e.target in s.paths { dir := s.paths[e.target]; }
      if !s.onDisk(dir) { continue; }
      out := out + [Override(e.alias, e.target, dir)];
    }
    assert edges[..|edges|] == edges;
    rs := SortByAlias(out);
  }

  predicate AliasLe(a: Override, b: Override) {
    Le(a.alias, b.alias)
  }

  method SortByAlias(out: seq<Override>) returns (rs: seq<Override>)
    ensures ByAlias(rs) && multiset(rs) == multiset(out)
  {
    NamesAreTotallyOrdered();
    rs := SortSlice(AliasLe, out);
  }

  // ---------------------------------------------------------------- what the set is

  lemma {:induction false} ChosenMembers(s: Setting, edges: seq<LockEdge>, o: Override)
    ensures o in Chosen(s, edges) <==> exists e :: e in edges && Applies(s, e) && o == OverrideOf(s, e)
  {
    if edges != [] {
      var init, last := edges[..|edges| - 1], edges[|edges| - 1];
      assert edges == init + [last];
      ChosenMembers(s, init, o);
    }
  }

  lemma ResolutionMembers(s: Setting, edges: seq<LockEdge>, rs: seq<Override>, o: Override)
    requires Resolution(s, edges, rs)
    ensures o in rs <==> exists e :: e in edges && Applies(s, e) && o == OverrideOf(s, e)
  {
    ChosenMembers(s, edges, o);
    assert o in rs <==> o in multiset(rs);
    assert o in Chosen(s, edges) <==> o in multiset(Chosen(s, edges));
  }

  /** What is overridden: the inputs of the consumer whose target is not the excluded one and has a clone on disk,
      at the directory that was given for it or else at its default place; and there only. */
  lemma OverridesExactly(s: Setting, edges: seq<LockEdge>, rs: seq<Override>, alias: Name, target: Name, dir: string)
    requires Resolution(s, edges, rs)
    ensures Override(alias, target, dir) in rs <==>
      && LockEdge(s.consumer, alias, target) in edges
      && (s.exclude == "" || target != s.exclude)
      && dir == (if target in s.paths then s.paths[target] else s.clone(target))
      && s.onDisk(dir)
  {
    ResolutionMembers(s, edges, rs, Override(alias, target, dir));
    if LockEdge(s.consumer, alias, target) in edges && Applies(s, LockEdge(s.consumer, alias, target)) {
      assert OverrideOf(s, LockEdge(s.consumer, alias, target)).target == target;
    }
  }

  ghost predicate DistinctAliases(rs: seq<Override>) {
    forall i, j | 0 <= i < j < |rs| :: rs[i].alias != rs[j].alias
  }

  lemma {:induction false} ChosenAliases(s: Setting, edges: seq<LockEdge>)
    requires AliasesUnique(edges)
    ensures DistinctAliases(Chosen(s, edges))
  {
    if edges != [] {
      var init, last := edges[..|edges| - 1], edges[|edges| - 1];
      assert forall i, j | 0 <= i < j < |init| :: !SameAlias(init[i], init[j]);
      ChosenAliases(s, init);
      forall o | o in Chosen(s, init) && Applies(s, last) ensures o.alias != last.alias {
        ChosenMembers(s, init, o);
        var e :| e in init && Applies(s, e) && o == OverrideOf(s, e);
        var i :| 0 <= i < |init| && init[i] == e;
        assert !SameAlias(edges[i], edges[|edges| - 1]);
      }
    }
  }

  lemma OverrideCount(a: seq<Override>, b: seq<Override>)
    requires DistinctAliases(a) && multiset(a) == multiset(b)
    ensures DistinctAliases(b)
  {
    assert Distinct(a);
    PermutationDistinct(a, b);
    forall i, j | 0 <= i < j < |b| ensures b[i].alias != b[j].alias {
      assert b[i] in Elems(a) && b[j] in Elems(a);
    }
  }

  lemma SameFirst(a: seq<Override>, b: seq<Override>)
    requires ByAlias(a) && ByAlias(b) && DistinctAliases(a) && multiset(a) == multiset(b)
    requires a != [] && b != []
    ensures a[0] == b[0]
  {
    assert a[0] in multiset(b) && b[0] in multiset(a);
    var i :| 0 <= i < |b| && b[i] == a[0];
    var j :| 0 <= j < |a| && a[j] == b[0];
    LeTotal(a[0].alias, a[0].alias);
    LeTotal(b[0].alias, b[0].alias);
    assert Le(a[0].alias, a[j].alias) && Le(b[0].alias, b[i].alias);
    LeAntisymmetric(a[0].alias, b[0].alias);
    assert j == 0;
  }

  lemma {:induction false} SameByAlias(a: seq<Override>, b: seq<Override>)
    requires ByAlias(a) && ByAlias(b) && DistinctAliases(a) && DistinctAliases(b) && multiset(a) == multiset(b)
    ensures a == b
  {
    assert |multiset(a)| == |a| && |multiset(b)| == |b|;
    if a != [] {
      SameFirst(a, b);
      assert a == [a[0]] + a[1..] && b == [b[0]] + b[1..];
      TailBag(a);
      TailBag(b);
      SameByAlias(a[1..], b[1..]);
    }
  }

  /** With unique aliases, as every lock that parses has, there is only one resolution: the flags do not
      depend on the order of the edges or on how the sort breaks ties. */
  lemma ResolutionIsUnique(s: Setting, e1: seq<LockEdge>, r1: seq<Override>, e2: seq<LockEdge>, r2: seq<Override>)
    requires AliasesUnique(e1) && AliasesUnique(e2) && Elems(e1) == Elems(e2)
    requires Resolution(s, e1, r1) && Resolution(s, e2, r2)
    ensures r1 == r2
  {
    ChosenAliases(s, e1);
    ChosenAliases(s, e2);
    OverrideCount(Chosen(s, e1), r1);
    OverrideCount(Chosen(s, e2), r2);
    forall o ensures o in r1 <==> o in r2 {
      ResolutionMembers(s, e1, r1, o);
      ResolutionMembers(s, e2, r2, o);
      assert forall e :: e in e1 <==> e in Elems(e1);
      assert forall e :: e in e2 <==> e in Elems(e2);
    }
    assert Distinct(r1) && Distinct(r2) && Elems(r1) == Elems(r2);
    DistinctPermutation(r1, r2);
    SameByAlias(r1, r2);
  }

  // ---------------------------------------------------------------- flags and record

  function Triples(rs: seq<Override>): seq<string> {
    if rs == [] then [] else [FLAG, rs[0].alias, Url(rs[0])] + Triples(rs[1..])
  }

  lemma {:induction false} TriplesSnoc(rs: seq<Override>, o: Override)
    ensures Triples(rs + [o]) == Triples(rs) + [FLAG, o.alias, Url(o)]
  {
    if rs == [] {
      assert rs + [o] == [o] && Triples([o][1..]) == [];
    } else {
      assert (rs + [o])[1..] == rs[1..] + [o];
      TriplesSnoc(rs[1..], o);
    }
  }

  /** Three arguments for each override, in order. */
  lemma {:induction false} TripleAt(rs: seq<Override>, i: nat)
    requires i < |rs|
    ensures |Triples(rs)| == 3 * |rs|
    ensures Triples(rs)[3 * i..3 * i + 3] == ["--override-input", rs[i].alias, "git+file://" + rs[i].dir]
  {
    var rest := Triples(rs[1..]);
    assert Triples(rs) == [FLAG, rs[0].alias, Url(rs[0])] + rest;
    if i > 0 {
      TripleAt(rs[1..], i - 1);
      assert Triples(rs)[3 * i..3 * i + 3] == rest[3 * (i - 1)..3 * (i - 1) + 3];
    } else if |rs| > 1 {
      TripleAt(rs[1..], 0);
    }
  }

  method OverrideInputArgs(rs: seq<Override>) returns (args: seq<string>)
    ensures args == Triples(rs)
  {
    args := [];
    for i := 0 to |rs|
      invariant args == Triples(rs[..i])
    {
      PrefixNext(rs, i);
      TriplesSnoc(rs[..i], rs[i]);
      args := args + [FLAG, rs[i].alias, Url(rs[i])];
    }
    assert rs[..|rs|] == rs;
  }

  /** The last override of a target, which the record keeps. */
  ghost predicate Recorded(rs: seq<Override>, m: map<Name, string>) {
    && (forall t :: t in m <==> exists o :: o in rs && o.target == t)
    && (forall t | t in m :: exists i :: 0 <= i < |rs| && rs[i].target == t && m[t] == Url(rs[i])
                                         && forall j | i < j < |rs| :: rs[j].target != t)
  }

  lemma RecordNext(rs: seq<Override>, o: Override, m: map<Name, string>)
    requires Recorded(rs, m)
    ensures Recorded(rs + [o], m[o.target := Url(o)])
  {
    var all, m' := rs + [o], m[o.target := Url(o)];
    forall t | t in m'
      ensures exists i :: 0 <= i < |all| && all[i].target == t && m'[t] == Url(all[i])
                          && forall j | i < j < |all| :: all[j].target != t
    {
      if t == o.target {
        assert all[|rs|] == o;
      } else {
        var i :| 0 <= i < |rs| && rs[i].target == t && m[t] == Url(rs[i])
                 && forall j | i < j < |rs| :: rs[j].target != t;
        assert all[i] == rs[i];
      }
    }
  }

  method OverriddenInputs(rs: seq<Override>) returns (m: map<Name, string>)
    ensures Recorded(rs, m)
  {
    m := map[];
    for i := 0 to |rs|
      invariant Recorded(rs[..i], m)
    {
      PrefixNext(rs, i);
      RecordNext(rs[..i], rs[i], m);
      m := m[rs[i].target := Url(rs[i])];
    }
    assert rs[..|rs|] == rs;
  }

  /** The record and the flags agree: a repository is recorded exactly when one of its edges is overridden,
      and then every flag emitted for it carries the recorded URL. */
  lemma RecordAgreesWithFlags(s: Setting, edges: seq<LockEdge>, rs: seq<Override>, m: map<Name, string>)
    requires Resolution(s, edges, rs) && Recorded(rs, m)
    ensures forall t :: t in m <==> exists e :: e in edges && Applies(s, e) && e.target == t
    ensures forall o | o in rs :: o.target in m && m[o.target] == Url(o)
  {
    forall t ensures t in m <==> exists e :: e in edges && Applies(s, e) && e.target == t {
      if t in m {
        var o :| o in rs && o.target == t;
        ResolutionMembers(s, edges, rs, o);
      }
      if e :| e in edges && Applies(s, e) && e.target == t {
        ResolutionMembers(s, edges, rs, OverrideOf(s, e));
      }
    }
    forall o | o in rs ensures o.target in m && m[o.target] == Url(o) {
      var i :| 0 <= i < |rs| && rs[i].target == o.target && m[o.target] == Url(rs[i]);
      ResolutionMembers(s, edges, rs, o);
      ResolutionMembers(s, edges, rs, rs[i]);
    }
  }

  // ---------------------------------------------------------------- reading the flags back

  function TrimPrefix(s: string, prefix: string): string {
    if HasPrefix(s, prefix) then s[|prefix|..] else s
  }

  /** What the installer gets for the arguments from i on. */
  function Pins(args: seq<string>, i: nat): seq<string>
    decreases |args| - i
  {
    if i + 2 >= |args| then []
    else if args[i] != FLAG then Pins(args, i + 1)
    else ["--override", args[i + 1] + "=" + TrimPrefix(args[i + 2], SCHEME)] + Pins(args, i + 3)
  }

  method PrivateInstallArgs(overrideArgs: seq<string>) returns (args: seq<string>)
    ensures args == ["--private"] + Pins(overrideArgs, 0)
  {
    args := ["--private"];
    var i := 0;
    while i + 2 < |overrideArgs|
      invariant args + Pins(overrideArgs, i) == ["--private"] + Pins(overrideArgs, 0)
      decreases |overrideArgs| - i
    {
      if overrideArgs[i] != FLAG {
        i := i + 1;
        continue;
      }
      var pin := ["--override", overrideArgs[i + 1] + "=" + TrimPrefix(overrideArgs[i + 2], SCHEME)];
      ConcatAssociative(args, pin, Pins(overrideArgs, i + 3));
      args := args + pin;
      i := i + 3;
    }
    assert args + [] == args;
  }

  /** One installer argument pair for each override, in order. */
  function PinsOf(rs: seq<Override>): seq<string> {
    if rs == [] then [] else ["--override", rs[0].alias + "=" + rs[0].dir] + PinsOf(rs[1..])
  }

  lemma {:induction false} PinsFrom(args: seq<string>, i: nat, rs: seq<Override>)
    requires i <= |args| && args[i..] == Triples(rs)
    ensures Pins(args, i) == PinsOf(rs)
    decreases rs
  {
    if rs == [] {
      assert |args[i..]| == 0;
    } else {
      assert args[i] == args[i..][0] == FLAG && args[i + 1] == args[i..][1] && args[i + 2] == args[i..][2];
      assert args[i + 3..] == args[i..][3..] == Triples(rs[1..]);
      assert TrimPrefix(Url(rs[0]), SCHEME) == rs[0].dir;
      PinsFrom(args, i + 3, rs[1..]);
    }
  }

  /** The installer records exactly the pins nix was given, in order, even for an alias or a directory
      that itself looks like the flag. */
  lemma InstallerReadsTheFlagsBack(rs: seq<Override>)
    ensures Pins(Triples(rs), 0) == PinsOf(rs)
  {
    assert Triples(rs)[0..] == Triples(rs);
    PinsFrom(Triples(rs), 0, rs);
  }

  lemma {:induction false} NoFlagNoPins(args: seq<string>, i: nat)
    requires i <= |args| && FLAG !in args[i..]
    ensures Pins(args, i) == []
    decreases |args| - i
  {
    if i + 2 < |args| {
      assert args[i..][0] == args[i] && args[i + 1..] == args[i..][1..];
      NoFlagNoPins(args, i + 1);
    }
  }

  lemma {:induction false} PinsBetween(args: seq<string>, i: nat, rs: seq<Override>, after: seq<string>)
    requires i <= |args| && args[i..] == Triples(rs) + after && FLAG !in after
    ensures Pins(args, i) == PinsOf(rs)
    decreases rs
  {
    if rs == [] {
      assert args[i..] == after;
      NoFlagNoPins(args, i);
    } else {
      var first := [FLAG, rs[0].alias, Url(rs[0])];
      assert Triples(rs) + after == first + (Triples(rs[1..]) + after);
      assert args[i] == args[i..][0] == FLAG && args[i + 1] == args[i..][1] && args[i + 2] == args[i..][2];
      assert args[i + 3..] == args[i..][3..];
      assert TrimPrefix(Url(rs[0]), SCHEME) == rs[0].dir;
      PinsBetween(args, i + 3, rs[1..], after);
    }
  }

  /** Other arguments before and behind the flags are passed over one by one. */
  lemma {:induction false} OtherArgumentsArePassedOver(
    args: seq<string>, i: nat, before: seq<string>, rs: seq<Override>, after: seq<string>)
    requires i <= |args| && args[i..] == before + (Triples(rs) + after) && FLAG !in before && FLAG !in after
    ensures Pins(args, i) == PinsOf(rs)
    decreases before
  {
    if before == [] {
      assert args[i..] == Triples(rs) + after;
      PinsBetween(args, i, rs, after);
    } else {
      assert args[i] == args[i..][0] == before[0];
      assert args[i + 1..] == args[i..][1..] == before[1..] + (Triples(rs) + after);
      OtherArgumentsArePassedOver(args, i + 1, before[1..], rs, after);
      TriplesAreLong(rs);
    }
  }

  lemma TriplesAreLong(rs: seq<Override>)
    ensures rs != [] ==> |Triples(rs)| >= 3
  {
  }
}
