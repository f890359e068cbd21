/**
 Totally ordered names and the sorting facts every ordered listing relies on.

 The program keeps sets and maps of names and lists them in alphabetical order wherever their order
 could be seen. So most statements about a list come down to three: it is sorted, it is distinct, and
 it has the elements of a given set. Listing combines them, and a set has only one listing, which is
 why iterating a map in any order and sorting afterwards always gives the same list. Sorting itself is
 a permutation into an order that may leave ties; the lemmas at the end say that the lists compared
 here have none.
 */
module Names {

  // Go compares strings byte by byte; for UTF-8 text that is the order of the characters.
  type Name = string

  predicate Le(a: Name, b: Name) {
    a == [] || (b != [] && (a[0] < b[0] || (a[0] == b[0] && Le(a[1..], b[1..]))))
  }

  lemma {:induction false} LeTotal(a: Name, b: Name)
    ensures Le(a, b) || Le(b, a)
  {
    if a != [] && b != [] && a[0] == b[0] {
      LeTotal(a[1..], b[1..]);
    }
  }

  lemma {:induction false} LeAntisymmetric(a: Name, b: Name)
    requires Le(a, b) && Le(b, a)
    ensures a == b
  {
    if a != [] {
      LeAntisymmetric(a[1..], b[1..]);
      assert a == [a[0]] + a[1..] && b == [b[0]] + b[1..];
    }
  }

  lemma {:induction false} LeTransitive(a: Name, b: Name, c: Name)
    requires Le(a, b) && Le(b, c)
    ensures Le(a, c)
  {
    if a != [] && a[0] == b[0] == c[0] {
      LeTransitive(a[1..], b[1..], c[1..]);
    }
  }

  /** A comparison that may leave ties. */
  ghost predicate Preorder<T(!new)>(le: (T, T) -> bool) {
    && (forall a, b :: le(a, b) || le(b, a))
    && (forall a, b, c :: le(a, b) && le(b, c) ==> le(a, c))
  }

  ghost predicate TotalOrder<T(!new)>(le: (T, T) -> bool) {
    Preorder(le) && forall a, b :: le(a, b) && le(b, a) ==> a == b
  }

  lemma NamesAreTotallyOrdered()
    ensures TotalOrder(Le)
  {
    forall a, b ensures Le(a, b) || Le(b, a) { LeTotal(a, b); }
    forall a, b | Le(a, b) && Le(b, a) ensures a == b { LeAntisymmetric(a, b); }
    forall a, b, c | Le(a, b) && Le(b, c) ensures Le(a, c) { LeTransitive(a, b, c); }
  }

  ghost predicate Sorted<T>(le: (T, T) -> bool, s: seq<T>) {
    forall i, j | 0 <= i < j < |s| :: le(s[i], s[j])
  }

  ghost predicate Distinct<T>(s: seq<T>) {
    forall i, j | 0 <= i < j < |s| :: s[i] != s[j]
  }

  function Elems<T>(s: seq<T>): set<T> {
    set x | x in s
  }

  lemma SortedCons<T>(le: (T, T) -> bool, x: T, s: seq<T>)
    requires Sorted(le, s) && forall y | y in s :: le(x, y)
    ensures Sorted(le, [x] + s)
  {
  }

  lemma SameMap<K, V>(a: map<K, V>, b: map<K, V>)
    requires a.Keys == b.Keys && forall k | k in a :: a[k] == b[k]
    ensures a == b
  {
  }

  lemma ConcatAssociative<T>(a: seq<T>, b: seq<T>, c: seq<T>)
    ensures (a + b) + c == a + (b + c)
  {
  }

  /** Walking a list: appending what stands at i completes one more prefix. */
  lemma PrefixNext<T>(s: seq<T>, i: nat)
    requires i < |s|
    ensures s[..i + 1] == s[..i] + [s[i]]
  {
  }

  lemma SplitLast<T>(s: seq<T>)
    requires s != []
    ensures s == s[..|s| - 1] + [s[|s| - 1]]
  {
  }

  lemma PrefixElems<T>(s: seq<T>, i: nat)
    requires i < |s|
    ensures s[i] in Elems(s) && Elems(s[..i + 1]) == Elems(s[..i]) + {s[i]}
  {
    PrefixNext(s, i);
  }

  lemma UpdateTwice<K, V>(m: map<K, V>, k: K, a: V, b: V)
    ensures m[k := a][k := b] == m[k := b]
    ensures k in m && m[k] == a ==> m[k := a] == m
  {
  }

  /** Inserting into a sorted list, the step of the library sort modelled by Sort. */
  function Insert<T(!new)>(le: (T, T) -> bool, x: T, s: seq<T>): (r: seq<T>)
    requires Preorder(le) && Sorted(le, s)
    ensures Sorted(le, r) && multiset(r) == multiset(s) + multiset{x}
  {
    if s == [] then [x]
    else if le(x, s[0]) then
      assert forall y | y in s :: le(x, y);
      SortedCons(le, x, s);
      [x] + s
    else
      var t := Insert(le, x, s[1..]);
      assert s == [s[0]] + s[1..];
      assert forall y | y in t :: le(s[0], y) by {
        forall y | y in t ensures y == x || y in s[1..] { assert y in multiset(t); }
      }
      SortedCons(le, s[0], t);
      [s[0]] + t
  }

  /** The library sort: a sorted permutation of its argument. */
  function Sort<T(!new)>(le: (T, T) -> bool, s: seq<T>): (r: seq<T>)
    requires Preorder(le)
    ensures Sorted(le, r) && multiset(r) == multiset(s)
  {
    if s == [] then []
    else
      assert s == [s[0]] + s[1..];
      Insert(le, s[0], Sort(le, s[1..]))
  }

  /** The library sort as its callers see it: how ties are broken is not promised. */
  method SortSlice<T(!new)>(le: (T, T) -> bool, s: seq<T>) returns (r: seq<T>)
    requires Preorder(le)
    ensures Sorted(le, r) && multiset(r) == multiset(s)
  {
    r := Sort(le, s);
  }

  lemma SameHead<T(!new)>(le: (T, T) -> bool, s: seq<T>, t: seq<T>)
    requires TotalOrder(le) && Sorted(le, s) && Sorted(le, t) && multiset(s) == multiset(t) && s != []
    ensures t != [] && s[0] == t[0]
  {
    assert |multiset(s)| == |s| && |multiset(t)| == |t|;
    assert s[0] in multiset(t) && t[0] in multiset(s);
    var i :| 0 <= i < |t| && t[i] == s[0];
    var j :| 0 <= j < |s| && s[j] == t[0];
    assert le(t[0], s[0]) && le(s[0], t[0]);
  }

  lemma TailBag<T>(s: seq<T>)
    requires s != []
    ensures s == [s[0]] + s[1..] && multiset(s[1..]) == multiset(s) - multiset{s[0]}
  {
    assert s == [s[0]] + s[1..];
  }

  lemma SameLength<T>(s: seq<T>, t: seq<T>)
    requires multiset(s) == multiset(t)
    ensures |s| == |t|
  {
    assert |multiset(s)| == |s| && |multiset(t)| == |t|;
  }

  lemma SortedTail<T>(le: (T, T) -> bool, s: seq<T>)
    requires Sorted(le, s) && s != []
    ensures Sorted(le, s[1..])
  {
  }

  /** A list has exactly one sorted permutation: how ties are broken cannot show. */
  lemma {:induction false} SortedUnique<T(!new)>(le: (T, T) -> bool, s: seq<T>, t: seq<T>)
    requires TotalOrder(le) && Sorted(le, s) && Sorted(le, t) && multiset(s) == multiset(t)
    ensures s == t
  {
    SameLength(s, t);
    if s != [] {
      SameHead(le, s, t);
      TailBag(s);
      TailBag(t);
      SortedTail(le, s);
      SortedTail(le, t);
      SortedUnique(le, s[1..], t[1..]);
    }
  }

  /** Distinct lists with the same elements are permutations of each other. */
  lemma DistinctPermutation<T>(s: seq<T>, t: seq<T>)
    requires Distinct(s) && Distinct(t) && Elems(s) == Elems(t)
    ensures multiset(s) == multiset(t)
  {
    forall x ensures multiset(s)[x] == multiset(t)[x] {
      DistinctCount(s, x);
      DistinctCount(t, x);
      assert x in s <==> x in Elems(s);
      assert x in t <==> x in Elems(t);
    }
  }

  lemma {:induction false} DistinctCount<T>(s: seq<T>, x: T)
    requires Distinct(s)
    ensures multiset(s)[x] == if x in s then 1 else 0
  {
    if s != [] {
      assert s == [s[0]] + s[1..];
      DistinctCount(s[1..], x);
    }
  }

  lemma {:induction false} DistinctSize<T>(s: seq<T>)
    requires Distinct(s)
    ensures |Elems(s)| == |s|
  {
    if s != [] {
      assert Elems(s) == {s[0]} + Elems(s[1..]);
      DistinctSize(s[1..]);
    }
  }

  lemma DistinctConcat<T>(a: seq<T>, b: seq<T>)
    requires Distinct(a) && Distinct(b) && Elems(a) !! Elems(b)
    ensures Distinct(a + b) && Elems(a + b) == Elems(a) + Elems(b)
  {
    forall i, j | 0 <= i < |a| && 0 <= j < |b| ensures a[i] != b[j] {
      assert a[i] in Elems(a) && b[j] in Elems(b);
    }
  }

  /** A permutation of a distinct list is distinct and has the same elements. */
  lemma PermutationDistinct<T>(s: seq<T>, t: seq<T>)
    requires Distinct(s) && multiset(s) == multiset(t)
    ensures Distinct(t) && Elems(t) == Elems(s)
  {
    forall x ensures x in s <==> x in t {
      assert x in s <==> x in multiset(s);
      assert x in t <==> x in multiset(t);
    }
    forall x ensures multiset(t)[x] <= 1 { DistinctCount(s, x); }
    CountsDistinct(t);
  }

  lemma {:induction false} CountsDistinct<T>(t: seq<T>)
    requires forall x :: multiset(t)[x] <= 1
    ensures Distinct(t)
  {
    if t != [] {
      assert t == [t[0]] + t[1..];
      forall x ensures multiset(t[1..])[x] <= multiset(t)[x] {}
      CountsDistinct(t[1..]);
      forall j | 1 <= j < |t| ensures t[0] != t[j] {
        assert t[j] in multiset(t[1..]) by { assert t[j] == t[1..][j - 1]; }
      }
    }
  }

  /** s lists the set S in increasing order, each element once. */
  ghost predicate Listing(s: seq<Name>, S: set<Name>) {
    Sorted(Le, s) && Distinct(s) && Elems(s) == S
  }

  lemma ListingUnique(s: seq<Name>, t: seq<Name>, S: set<Name>)
    requires Listing(s, S) && Listing(t, S)
    ensures s == t
  {
    NamesAreTotallyOrdered();
    DistinctPermutation(s, t);
    SortedUnique(Le, s, t);
  }

  function SortNames(s: seq<Name>): (r: seq<Name>)
    ensures Sorted(Le, r) && multiset(r) == multiset(s)
  {
    NamesAreTotallyOrdered();
    Sort(Le, s)
  }

  lemma SortNamesLists(s: seq<Name>)
    requires Distinct(s)
    ensures Listing(SortNames(s), Elems(s))
  {
    PermutationDistinct(s, SortNames(s));
  }

  /** The order Go's map-key helpers produce: the keys, collected in any order, then sorted. */
  ghost function SortedOf(S: set<Name>): seq<Name> {
    ListingExists(S);
    var s :| Listing(s, S);
    s
  }

  lemma ListingExists(S: set<Name>)
    ensures exists s :: Listing(s, S)
  {
    SortNamesLists(Enumerate(S));
  }

  ghost function Enumerate<T>(S: set<T>): (s: seq<T>)
    ensures Distinct(s) && Elems(s) == S
  {
    if S == {} then [] else
      var x :| x in S;
      var t := Enumerate(S - {x});
      assert Elems([x] + t) == {x} + Elems(t);
      assert x !in Elems(t);
      [x] + t
  }

  lemma ListingIs(s: seq<Name>, S: set<Name>)
    requires Listing(s, S)
    ensures s == SortedOf(S)
  {
    ListingUnique(s, SortedOf(S), S);
  }

  lemma LeastExists(S: set<Name>)
    requires S != {}
    ensures exists m :: m in S && forall x | x in S :: Le(m, x)
  {
    var s := SortedOf(S);
    assert s != [] by { var x :| x in S; assert x in Elems(s); }
    NamesAreTotallyOrdered();
    assert s[0] in Elems(s);
    forall x | x in S ensures Le(s[0], x) {
      assert x in Elems(s);
      var i :| 0 <= i < |s| && s[i] == x;
    }
  }

  ghost function Least(S: set<Name>): (m: Name)
    requires S != {}
    ensures m in S && forall x | x in S :: Le(m, x)
  {
    LeastExists(S);
    var m :| m in S && forall x | x in S :: Le(m, x);
    m
  }

  lemma LeastIs(S: set<Name>, m: Name)
    requires m in S && forall x | x in S :: Le(m, x)
    ensures Least(S) == m
  {
    LeAntisymmetric(Least(S), m);
  }

  /** Alphabetical order on equally long lists, compared at the first difference. */
  ghost predicate LexLe(a: seq<Name>, b: seq<Name>) {
    a == [] || (b != [] && (if a[0] == b[0] then LexLe(a[1..], b[1..]) else Le(a[0], b[0])))
  }

  lemma {:induction false} LexLeAtDifference(a: seq<Name>, b: seq<Name>, i: nat)
    requires i < |a| && i < |b| && a[..i] == b[..i] && a[i] != b[i] && Le(a[i], b[i])
    ensures LexLe(a, b)
  {
    if i > 0 {
      assert a[0] == a[..i][0] == b[..i][0] == b[0];
      assert a[1..][..i - 1] == a[..i][1..] && b[1..][..i - 1] == b[..i][1..];
      LexLeAtDifference(a[1..], b[1..], i - 1);
    }
  }

  lemma LexLeReflexive(a: seq<Name>)
    ensures LexLe(a, a)
  {
  }
}
