/** The workspace lock: its structural invariants, and the edge order it is written in. */
module LockFile {
  import opened Names
  import opened Edges

  datatype RepoEntry = RepoEntry(flakePath: string, remoteUrl: string)
  datatype Lock = Lock(terminal: Name, order: seq<Name>, repos: map<Name, RepoEntry>, edges: seq<LockEdge>)

  datatype Violation =
    | TerminalUnknown
    | SelfEdge(index: nat)
    | ConsumerUnknown(index: nat)
    | TargetUnknown(index: nat)
    | NoFlakePath(index: nat)
    | DuplicateAlias(index: nat)

  datatype Outcome = Valid | Invalid(violation: Violation)

  ghost predicate TerminalKnown(lock: Lock) {
    lock.terminal == "" || lock.terminal in lock.repos
  }

  ghost predicate EdgeOk(lock: Lock, e: LockEdge) {
    && e.consumer != e.target
    && e.consumer in lock.repos && e.target in lock.repos
    && lock.repos[e.target].flakePath != ""
  }

  ghost predicate SameAlias(a: LockEdge, b: LockEdge) {
    a.consumer == b.consumer && a.alias == b.alias
  }

  /** No consumer declares one alias twice. */
  ghost predicate AliasesUnique(edges: seq<LockEdge>) {
    forall i, j | 0 <= i < j < |edges| :: !SameAlias(edges[i], edges[j])
  }

  ghost predicate EdgesOk(lock: Lock, n: nat)
    requires n <= |lock.edges|
  {
    (forall i | 0 <= i < n :: EdgeOk(lock, lock.edges[i])) && AliasesUnique(lock.edges[..n])
  }

  ghost predicate LockValid(lock: Lock) {
    TerminalKnown(lock) && EdgesOk(lock, |lock.edges|)
  }

  /** The first edge that breaks an invariant, with everything before it in order. */
  ghost predicate FirstBadEdge(lock: Lock, i: nat) {
    i < |lock.edges| && EdgesOk(lock, i) && !EdgesOk(lock, i + 1)
  }

  /** What a violation says of its edge. Of several, the first in this order is reported. */
  ghost predicate Breaks(lock: Lock, v: Violation) {
    if v.TerminalUnknown? then lock.terminal != "" && lock.terminal !in lock.repos
    else
      && v.index < |lock.edges|
      && var e := lock.edges[v.index];
         if v.SelfEdge? then e.consumer == e.target
         else
           && e.consumer != e.target
           && if v.ConsumerUnknown? then e.consumer !in lock.repos
              else
                && e.consumer in lock.repos
                && if v.TargetUnknown? then e.target !in lock.repos
                   else
                     && e.target in lock.repos
                     && if v.NoFlakePath? then lock.repos[e.target].flakePath == ""
                        else
                          && lock.repos[e.target].flakePath != ""
                          && exists h :: 0 <= h < v.index && SameAlias(lock.edges[h], e)
  }

  lemma BadEdgeInvalid(lock: Lock, i: nat)
    requires i < |lock.edges| && EdgesOk(lock, i)
    requires !EdgeOk(lock, lock.edges[i]) || exists h :: 0 <= h < i && SameAlias(lock.edges[h], lock.edges[i])
    ensures FirstBadEdge(lock, i) && !LockValid(lock)
  {
    if EdgeOk(lock, lock.edges[i]) {
      var h :| 0 <= h < i && SameAlias(lock.edges[h], lock.edges[i]);
      assert lock.edges[..i + 1][h] == lock.edges[h] && lock.edges[..i + 1][i] == lock.edges[i];
      assert lock.edges[..|lock.edges|][h] == lock.edges[h] && lock.edges[..|lock.edges|][i] == lock.edges[i];
    }
  }

  method ParseLock(lock: Lock) returns (r: Outcome)
    ensures r.Valid? <==> LockValid(lock)
    ensures r.Invalid? ==> (r.violation.TerminalUnknown? <==> !TerminalKnown(lock))
    ensures r.Invalid? ==> Breaks(lock, r.violation)
    ensures r.Invalid? && !r.violation.TerminalUnknown? ==> FirstBadEdge(lock, r.violation.index)
  {
    if lock.terminal != "" && lock.terminal !in lock.repos {
      return Invalid(TerminalUnknown);
    }
    var aliasMap: map<(Name, Name), Name> := map[];
    for i := 0 to |lock.edges|
      invariant EdgesOk(lock, i)
      invariant forall h | 0 <= h < i :: (lock.edges[h].consumer, lock.edges[h].alias) in aliasMap
      invariant forall k | k in aliasMap ::
        exists h :: 0 <= h < i && lock.edges[h].consumer == k.0 && lock.edges[h].alias == k.1
    {
      var e := lock.edges[i];
      assert lock.edges[..i + 1] == lock.edges[..i] + [e];
      if e.consumer == e.target {
        BadEdgeInvalid(lock, i);
        return Invalid(SelfEdge(i));
      }
      if e.consumer !in lock.repos {
        BadEdgeInvalid(lock, i);
        return Invalid(ConsumerUnknown(i));
      }
      if e.target !in lock.repos {
        BadEdgeInvalid(lock, i);
        return Invalid(TargetUnknown(i));
      }
      if lock.repos[e.target].flakePath == "" {
        BadEdgeInvalid(lock, i);
        return Invalid(NoFlakePath(i));
      }
      var key := (e.consumer, e.alias);
      if key in aliasMap {
        ghost var h :| 0 <= h < i && lock.edges[h].consumer == key.0 && lock.edges[h].alias == key.1;
        assert SameAlias(lock.edges[h], e);
        BadEdgeInvalid(lock, i);
        return Invalid(DuplicateAlias(i));
      }
      aliasMap := aliasMap[key := e.target];
    }
    return Valid;
  }

  // ---------------------------------------------------------------- a derived lock is valid and sorted

  predicate EdgeLe(a: LockEdge, b: LockEdge) {
    if a.consumer != b.consumer then Le(a.consumer, b.consumer)
    else if a.alias != b.alias then Le(a.alias, b.alias)
    else Le(a.target, b.target)
  }

  lemma EdgesAreTotallyOrdered()
    ensures TotalOrder(EdgeLe)
  {
    NamesAreTotallyOrdered();
    forall a, b ensures EdgeLe(a, b) || EdgeLe(b, a) {
      LeTotal(a.consumer, b.consumer); LeTotal(a.alias, b.alias); LeTotal(a.target, b.target);
    }
    forall a, b | EdgeLe(a, b) && EdgeLe(b, a) ensures a == b {
      if a.consumer != b.consumer { LeAntisymmetric(a.consumer, b.consumer); }
      else if a.alias != b.alias { LeAntisymmetric(a.alias, b.alias); }
      else { LeAntisymmetric(a.target, b.target); }
    }
    forall a, b, c | EdgeLe(a, b) && EdgeLe(b, c) ensures EdgeLe(a, c) { EdgeLeTransitive(a, b, c); }
  }

  lemma EdgeLeTransitive(a: LockEdge, b: LockEdge, c: LockEdge)
    requires EdgeLe(a, b) && EdgeLe(b, c)
    ensures EdgeLe(a, c)
  {
    if a.consumer != b.consumer && b.consumer != c.consumer {
      LeTransitive(a.consumer, b.consumer, c.consumer);
      if a.consumer == c.consumer { LeAntisymmetric(a.consumer, b.consumer); }
    } else if a.consumer == b.consumer == c.consumer {
      if a.alias != b.alias && b.alias != c.alias {
        LeTransitive(a.alias, b.alias, c.alias);
        if a.alias == c.alias { LeAntisymmetric(a.alias, b.alias); }
      } else if a.alias == b.alias == c.alias {
        LeTransitive(a.target, b.target, c.target);
      }
    }
  }

  /** WriteLock's edge list: a sorted copy, which for a derived lock is the list itself. */
  method EdgesAsWritten(edges: seq<LockEdge>) returns (written: seq<LockEdge>)
    ensures Sorted(EdgeLe, written) && multiset(written) == multiset(edges)
    ensures StrictlySorted(edges) ==> written == edges
  {
    EdgesAreTotallyOrdered();
    written := Sort(EdgeLe, edges);
    if StrictlySorted(edges) {
      assert Sorted(EdgeLe, edges);
      SortedUnique(EdgeLe, written, edges);
    }
  }

  /** What BuildEdges returns satisfies every invariant that does not depend on the disk. */
  lemma BuiltEdgesAreValid(repos: Repos, inputs: Inputs, canon: string -> string, edges: seq<LockEdge>, lock: Lock)
    requires StrictlySorted(edges) && forall e | e in edges :: IsEdge(repos, inputs, canon, e)
    requires lock.edges == edges && lock.repos.Keys == repos.Keys
    ensures AliasesUnique(edges) && EndpointsIn(edges, repos.Keys)
    ensures forall e | e in edges :: e.consumer != e.target
    ensures LockValid(lock) <==> TerminalKnown(lock) && forall e | e in edges :: lock.repos[e.target].flakePath != ""
  {
    forall i, j | 0 <= i < j < |edges|
      ensures !SameAlias(edges[i], edges[j])
    {
      assert KeyLt(edges[i], edges[j]);
    }
    assert lock.edges[..|lock.edges|] == edges;
    forall e | e in edges
      ensures e.consumer in repos && e.target in repos && e.consumer != e.target
      ensures EdgeOk(lock, e) <==> lock.repos[e.target].flakePath != ""
    {
      assert IsEdge(repos, inputs, canon, e);
    }
    if LockValid(lock) {
      forall e | e in edges ensures lock.repos[e.target].flakePath != "" {
        var i :| 0 <= i < |edges| && edges[i] == e;
        assert EdgeOk(lock, lock.edges[i]);
      }
    }
  }
}
