/**
 Finite relations on names: walks, cycles, and how reaching a cycle relates to getting stuck.

 Two facts carry the theorems about dependency orders. Nodes that each have a successor among
 themselves reach a cycle, because a walk longer than their number repeats a node; and nodes that can
 be ranked so that every step goes down reach none. A relation is a set of pairs, a pair (a, b)
 meaning that a depends on b, and a walk is the list of the nodes it visits. None of this knows about
 the program: Dag, Edges and Graph use it for their own relations.
 */
module Digraph {
  import opened Names

  // (a, b) in rel: a depends on b.
  type Rel = set<(Name, Name)>

  ghost predicate Over(rel: Rel, nodes: set<Name>) {
    forall e | e in rel :: e.0 in nodes && e.1 in nodes
  }

  ghost predicate Walk(rel: Rel, w: seq<Name>) {
    |w| >= 1 && forall i | 0 <= i < |w| - 1 :: (w[i], w[i + 1]) in rel
  }

  ghost predicate Cycle(rel: Rel, w: seq<Name>) {
    Walk(rel, w) && |w| >= 2 && w[0] == w[|w| - 1]
  }

  ghost predicate Acyclic(rel: Rel) {
    forall w :: !Cycle(rel, w)
  }

  /** Some walk from n ends in a cycle. */
  ghost predicate ReachesCycle(rel: Rel, n: Name) {
    exists w, c :: Walk(rel, w) && w[0] == n && Cycle(rel, c) && c[0] == w[|w| - 1]
  }

  lemma WalkSlice(rel: Rel, w: seq<Name>, i: nat, j: nat)
    requires Walk(rel, w) && i < j <= |w|
    ensures Walk(rel, w[i..j])
  {
    forall k | 0 <= k < j - i - 1 ensures (w[i..j][k], w[i..j][k + 1]) in rel {
      assert (w[i + k], w[i + k + 1]) in rel;
    }
  }

  lemma WalkExtend(rel: Rel, n: Name, w: seq<Name>)
    requires Walk(rel, w) && (n, w[0]) in rel
    ensures Walk(rel, [n] + w)
  {
    var v := [n] + w;
    forall i | 0 <= i < |v| - 1 ensures (v[i], v[i + 1]) in rel {
      if i > 0 {
        assert (w[i - 1], w[i]) in rel;
      }
    }
  }

  lemma WalkTail(rel: Rel, w: seq<Name>)
    requires Walk(rel, w) && |w| > 1
    ensures Walk(rel, w[1..]) && (w[0], w[1]) in rel && Elems(w) == {w[0]} + Elems(w[1..])
  {
    WalkSlice(rel, w, 1, |w|);
    assert w == [w[0]] + w[1..];
  }

  ghost predicate Closed(rel: Rel, S: set<Name>) {
    forall e | e in rel && e.0 in S :: e.1 in S
  }

  /** A walk never leaves a closed set, so one that ends outside was outside all along. */
  lemma {:induction false} WalkInClosedSet(rel: Rel, S: set<Name>, w: seq<Name>)
    requires Walk(rel, w) && Closed(rel, S)
    ensures w[0] in S ==> Elems(w) <= S
    ensures w[|w| - 1] !in S ==> Elems(w) !! S
  {
    if |w| > 1 {
      WalkTail(rel, w);
      WalkInClosedSet(rel, S, w[1..]);
      assert w[1] in Elems(w[1..]);
    }
  }

  /** Pigeonhole: a list longer than the set it draws from repeats an element. */
  lemma Repeats(w: seq<Name>, nodes: set<Name>) returns (i: nat, j: nat)
    requires |w| > |nodes| && Elems(w) <= nodes
    ensures i < j < |w| && w[i] == w[j]
  {
    if Distinct(w) {
      DistinctSize(w);
      SubsetSize(Elems(w), nodes);
      assert false;
    }
    i, j :| 0 <= i < j < |w| && w[i] == w[j];
  }

  lemma {:induction false} SubsetSize<T>(a: set<T>, b: set<T>)
    requires a <= b
    ensures |a| <= |b|
  {
    if a != {} {
      var x :| x in a;
      SubsetSize(a - {x}, b - {x});
    }
  }

  ghost predicate HasSuccIn(rel: Rel, nodes: set<Name>, a: Name) {
    exists b :: b in nodes && (a, b) in rel
  }

  /** A set every member of which has a successor inside it leads every member to a cycle. */
  lemma StuckReachesCycle(rel: Rel, stuck: set<Name>, n: Name)
    requires n in stuck
    requires forall a | a in stuck :: HasSuccIn(rel, stuck, a)
    ensures ReachesCycle(rel, n)
  {
    var w := LongWalk(rel, stuck, n, |stuck|);
    var i, j := Repeats(w, stuck);
    WalkSlice(rel, w, 0, i + 1);
    WalkSlice(rel, w, i, j + 1);
    var c := w[i..j + 1];
    assert Cycle(rel, c);
    var v := w[0..i + 1];
    assert Walk(rel, v) && v[0] == n && c[0] == v[|v| - 1];
  }

  lemma {:induction false} LongWalk(rel: Rel, stuck: set<Name>, n: Name, steps: nat) returns (w: seq<Name>)
    requires n in stuck
    requires forall a | a in stuck :: HasSuccIn(rel, stuck, a)
    ensures Walk(rel, w) && |w| == steps + 1 && w[0] == n && Elems(w) <= stuck
    decreases steps
  {
    if steps == 0 {
      w := [n];
    } else {
      assert HasSuccIn(rel, stuck, n);
      var b :| b in stuck && (n, b) in rel;
      var v := LongWalk(rel, stuck, b, steps - 1);
      WalkExtend(rel, n, v);
      w := [n] + v;
      assert forall x | x in Elems(w) :: x == n || x in Elems(v);
    }
  }

  lemma AcyclicReachesNone(rel: Rel, n: Name)
    ensures Acyclic(rel) ==> !ReachesCycle(rel, n)
  {
  }

  lemma {:induction false} RanksDecrease(rel: Rel, rank: map<Name, nat>, w: seq<Name>)
    requires Walk(rel, w) && w[0] in rank
    requires forall e | e in rel && e.0 in rank :: e.1 in rank && rank[e.1] < rank[e.0]
    ensures forall i | 0 <= i < |w| :: w[i] in rank
    ensures rank[w[|w| - 1]] + |w| - 1 <= rank[w[0]]
  {
    if |w| > 1 {
      assert (w[0], w[1]) in rel;
      WalkSlice(rel, w, 1, |w|);
      RanksDecrease(rel, rank, w[1..]);
      forall i | 0 <= i < |w| ensures w[i] in rank {
        if i > 0 { assert w[i] == w[1..][i - 1]; }
      }
    }
  }

  /** A rank that falls along every edge leaving the ranked nodes rules cycles out of their reach. */
  lemma RankedReachesNoCycle(rel: Rel, rank: map<Name, nat>, n: Name)
    requires n in rank
    requires forall e | e in rel && e.0 in rank :: e.1 in rank && rank[e.1] < rank[e.0]
    ensures !ReachesCycle(rel, n)
  {
    if ReachesCycle(rel, n) {
      var w, c :| Walk(rel, w) && w[0] == n && Cycle(rel, c) && c[0] == w[|w| - 1];
      RanksDecrease(rel, rank, w);
      assert w[|w| - 1] in rank;
      RanksDecrease(rel, rank, c);
      assert false;
    }
  }
}
