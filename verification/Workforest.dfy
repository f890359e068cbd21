/**
 Where a workspace root lies: inside a set of coordinated worktrees, and of which canonical root.

 Paths are strings; the results are stated on their segments, which the methods take as ghost parameters.
 */
module Workforest {
  import opened Basics

  type Segments = seq<string>

  /** Segments of a path without doubled separators: none is empty and none holds a separator. */
  ghost predicate Plain(segs: Segments) {
    forall x | x in segs :: x != "" && '/' !in x
  }

  /** The segments of a cleaned absolute path, or of a branch name: none stands for this or the parent
      directory. */
  ghost predicate Clean(segs: Segments) {
    Plain(segs) && "." !in segs && ".." !in segs
  }

  /** The segments of a cleaned relative path: this directory, or some parents and clean segments below. */
  ghost predicate CleanRelative(segs: Segments) {
    segs == ["."] || (segs != [] && exists k: nat :: k <= |segs| && Parents(segs, k) && Clean(segs[k..]))
  }

  predicate Parents(segs: Segments, k: nat)
    requires k <= |segs|
  {
    forall i | 0 <= i < k :: segs[i] == ".."
  }

  /** Every segment behind a separator. */
  function Text(segs: Segments): string {
    if segs == [] then "" else Text(segs[..|segs| - 1]) + "/" + segs[|segs| - 1]
  }

  function AbsPath(segs: Segments): string {
    if segs == [] then "/" else Text(segs)
  }

  function RelPath(segs: Segments): string
    requires segs != []
  {
    Text(segs)[1..]
  }

  lemma TextSnoc(segs: Segments, x: string)
    ensures Text(segs + [x]) == Text(segs) + "/" + x
  {
    assert (segs + [x])[..|segs|] == segs;
  }

  lemma {:induction false} TextConcat(a: Segments, b: Segments)
    ensures Text(a + b) == Text(a) + Text(b)
    decreases |b|
  {
    if b == [] {
      assert a + b == a;
    } else {
      var init, last := b[..|b| - 1], b[|b| - 1];
      assert a + b == a + init + [last];
      TextConcat(a, init);
      TextSnoc(a + init, last);
    }
  }

  lemma {:induction false} TextStarts(segs: Segments)
    requires segs != []
    ensures |Text(segs)| > 0 && Text(segs)[0] == '/'
    ensures Plain(segs) ==> |Text(segs)| > 1
  {
    if |segs| > 1 { TextStarts(segs[..|segs| - 1]); }
    assert segs[|segs| - 1] in segs;
  }

  lemma PlainPart(segs: Segments, n: nat)
    requires Plain(segs) && n <= |segs|
    ensures Plain(segs[..n]) && Plain(segs[n..])
  {
    assert segs == segs[..n] + segs[n..];
    forall x | x in segs[..n] || x in segs[n..] ensures x in segs {}
  }

  lemma PlainConcat(a: Segments, b: Segments)
    requires Plain(a) && Plain(b)
    ensures Plain(a + b)
  {
    forall x | x in a + b ensures x != "" && '/' !in x { assert x in a || x in b; }
  }

  // ---------------------------------------------------------------- string operations

  /** Up to the last separator. */
  function UpToSlash(s: string): string {
    if s == "" then "" else if s[|s| - 1] == '/' then s[..|s| - 1] else UpToSlash(s[..|s| - 1])
  }

  /** The parent of a cleaned absolute path. */
  function DirName(path: string): string {
    if UpToSlash(path) == "" then "/" else UpToSlash(path)
  }

  lemma {:induction false} UpToLastSegment(s: string, x: string)
    requires '/' !in x
    ensures UpToSlash(s + "/" + x) == s
    decreases |x|
  {
    var t := s + "/" + x;
    if x == "" {
      assert t[..|t| - 1] == s;
    } else {
      assert t[..|t| - 1] == s + "/" + x[..|x| - 1];
      UpToLastSegment(s, x[..|x| - 1]);
    }
  }

  lemma ParentIs(segs: Segments)
    requires Plain(segs)
    ensures DirName(AbsPath(segs)) == if segs == [] then "/" else AbsPath(segs[..|segs| - 1])
  {
    if segs == [] {
      assert "/"[..0] == "";
    } else {
      var init := segs[..|segs| - 1];
      assert segs[|segs| - 1] in segs;
      UpToLastSegment(Text(init), segs[|segs| - 1]);
      if init != [] { TextStarts(init); }
    }
  }

  /** Two texts that end alike end in the same segment. */
  lemma LastSegmentsAgree(s: string, x: string, t: string, y: string)
    requires '/' !in x && '/' !in y
    ensures HasSuffix(s + "/" + x, t + "/" + y) <==> x == y && HasSuffix(s, t)
  {
    var a, b := s + "/" + x, t + "/" + y;
    if HasSuffix(a, b) {
      UpToLastSegment(s, x);
      UpToLastSegment(t, y);
      var front := a[..|a| - |b|];
      assert a == front + b == front + t + "/" + y;
      UpToLastSegment(front + t, y);
      assert s == front + t;
      assert x == a[|s| + 1..] == y;
      assert s[|s| - |t|..] == t;
    }
    if x == y && HasSuffix(s, t) {
      assert a[|a| - |b|..] == s[|s| - |t|..] + "/" + y;
    }
  }

  predicate EndsIn(segs: Segments, wf: Segments) {
    |wf| <= |segs| && segs[|segs| - |wf|..] == wf
  }

  lemma EndsInSnoc(segs: Segments, x: string, wf: Segments, y: string)
    ensures EndsIn(segs + [x], wf + [y]) <==> x == y && EndsIn(segs, wf)
  {
    if |wf| <= |segs| {
      assert (segs + [x])[|segs| - |wf|..] == segs[|segs| - |wf|..] + [x];
      assert (segs[|segs| - |wf|..] + [x])[..|wf|] == segs[|segs| - |wf|..] && (wf + [y])[..|wf|] == wf;
    }
  }

  /** A match is on segment boundaries. */
  lemma {:induction false} SuffixOnSegments(segs: Segments, wf: Segments)
    requires Plain(segs) && Plain(wf)
    ensures HasSuffix(Text(segs), Text(wf)) <==> EndsIn(segs, wf)
    decreases wf
  {
    if wf == [] {
      assert Text(segs)[|Text(segs)|..] == "";
    } else if segs == [] {
      TextStarts(wf);
    } else {
      var a, w := segs[..|segs| - 1], wf[..|wf| - 1];
      var x, y := segs[|segs| - 1], wf[|wf| - 1];
      assert x in segs && y in wf;
      PlainPart(segs, |a|);
      PlainPart(wf, |w|);
      SuffixOnSegments(a, w);
      LastSegmentsAgree(Text(a), x, Text(w), y);
      EndsInSnoc(a, x, w, y);
      assert wf == w + [y] && segs == a + [x];
    }
  }

  // ---------------------------------------------------------------- the location

  datatype Location = Location(canonical: string, inside: bool)

  /** The ancestor of n segments ends in the workforests directory. */
  predicate Match(root: Segments, wf: Segments, n: nat) {
    n < |root| && EndsIn(root[..n], wf)
  }

  /** n is the deepest strict ancestor that matches. */
  predicate Deepest(root: Segments, wf: Segments, n: nat) {
    Match(root, wf, n) && forall k | n < k < |root| :: !Match(root, wf, k)
  }

  ghost predicate RelativeResult(root: Segments, wf: Segments, r: Location) {
    && (r.inside <==> exists n: nat :: Match(root, wf, n))
    && (r.inside ==> exists n: nat :: Deepest(root, wf, n) && r.canonical == Text(root[..n - |wf|]))
    && (!r.inside ==> r.canonical == "")
  }

  lemma MatchOnText(root: Segments, wf: Segments, n: nat)
    requires Plain(root) && Plain(wf) && wf != [] && n < |root|
    ensures HasSuffix(AbsPath(root[..n]), Text(wf)) <==> Match(root, wf, n)
    ensures Match(root, wf, n) ==>
      AbsPath(root[..n])[..|AbsPath(root[..n])| - |Text(wf)|] == Text(root[..n - |wf|])
  {
    var a := root[..n];
    PlainPart(root, n);
    SuffixOnSegments(a, wf);
    TextStarts(wf);
    if EndsIn(a, wf) {
      assert a == root[..n - |wf|] + wf;
      TextConcat(root[..n - |wf|], wf);
    }
  }

  /** For a workforests directory given relative to the canonical root. */
  method LocateRelative(root: string, wf: string, ghost rs: Segments, ghost ws: Segments) returns (r: Location)
    requires Plain(rs) && Plain(ws) && ws != [] && root == AbsPath(rs) && wf == RelPath(ws)
    ensures RelativeResult(rs, ws, r)
  {
    var suffix := "/" + wf;
    TextStarts(ws);
    assert suffix == Text(ws);
    assert rs[..|rs|] == rs;
    ParentOfAncestor(rs, |rs|);
    r := WalkUp(DirName(root), suffix, rs, ws, if rs == [] then 0 else |rs| - 1);
  }

  method WalkUp(start: string, suffix: string, ghost rs: Segments, ghost ws: Segments, ghost n0: nat)
    returns (r: Location)
    requires Plain(rs) && Plain(ws) && ws != [] && suffix == Text(ws)
    requires Ancestor(rs, n0) && NoneDeeper(rs, ws, n0) && start == AbsPath(rs[..n0])
    ensures RelativeResult(rs, ws, r)
  {
    var dir := start;
    ghost var n: nat := n0;
    while true
      invariant Ancestor(rs, n) && NoneDeeper(rs, ws, n) && dir == AbsPath(rs[..n])
      decreases n
    {
      AtAncestor(rs, ws, n, dir, suffix);
      if HasSuffix(dir, suffix) {
        return Location(dir[..|dir| - |suffix|], true);
      }
      ParentOfAncestor(rs, n);
      var parent := DirName(dir);
      if parent == dir {
        return Location("", false);
      }
      n := n - 1;
      dir := parent;
    }
  }

  /** n counts the segments of a strict ancestor; the file system root is its own parent. */
  predicate Ancestor(root: Segments, n: nat) {
    n < |root| || (root == [] && n == 0)
  }

  predicate NoneDeeper(root: Segments, wf: Segments, n: nat) {
    forall k | n < k < |root| :: !Match(root, wf, k)
  }

  lemma LongerText(segs: Segments)
    requires segs != [] && Plain(segs)
    ensures AbsPath(segs[..|segs| - 1]) != AbsPath(segs)
  {
    TextStarts(segs);
    assert segs[|segs| - 1] in segs;
  }

  lemma ParentOfAncestor(root: Segments, n: nat)
    requires Plain(root) && n <= |root|
    ensures DirName(AbsPath(root[..n])) == AbsPath(root[..if n == 0 then 0 else n - 1])
    ensures DirName(AbsPath(root[..n])) == AbsPath(root[..n]) <==> n == 0
  {
    var a := root[..n];
    PlainPart(root, n);
    ParentIs(a);
    if n > 0 {
      assert a[..n - 1] == root[..n - 1];
      LongerText(a);
    }
  }

  lemma AtAncestor(root: Segments, wf: Segments, n: nat, dir: string, suffix: string)
    requires Plain(root) && Plain(wf) && wf != [] && Ancestor(root, n) && NoneDeeper(root, wf, n)
    requires dir == AbsPath(root[..n]) && suffix == Text(wf)
    ensures HasSuffix(dir, suffix) ==> RelativeResult(root, wf, Location(dir[..|dir| - |suffix|], true))
    ensures !HasSuffix(dir, suffix) && n == 0 ==> RelativeResult(root, wf, Location("", false))
    ensures !HasSuffix(dir, suffix) && n > 0 ==> NoneDeeper(root, wf, n - 1)
  {
    TextStarts(wf);
    if n < |root| {
      MatchOnText(root, wf, n);
      if Match(root, wf, n) { assert Deepest(root, wf, n); }
    }
  }

  // ---------------------------------------------------------------- sets inside their canonical root

  /** The branch begins no second copy of the workforests directory. */
  predicate NoSecondCopy(wf: Segments, branch: Segments) {
    forall j | 0 < j < |branch| :: !EndsIn(wf + branch[..j], wf)
  }

  lemma MatchesOfSet(canonical: Segments, wf: Segments, branch: Segments, j: nat)
    requires j < |branch|
    ensures Match(canonical + wf + branch, wf, |canonical| + |wf| + j) <==> EndsIn(wf + branch[..j], wf)
  {
    var n := |canonical| + |wf| + j;
    assert (canonical + wf + branch)[..n] == canonical + (wf + branch[..j]);
    assert (canonical + wf + branch)[..n][n - |wf|..] == (wf + branch[..j])[j..];
  }

  lemma {:induction false} TextInjective(a: Segments, b: Segments)
    requires Plain(a) && Plain(b) && Text(a) == Text(b)
    ensures a == b
  {
    SuffixOnSegments(a, b);
    SuffixOnSegments(b, a);
    assert a == b;
  }

  lemma DeepestOfSet(canonical: Segments, wf: Segments, branch: Segments)
    requires branch != []
    ensures Match(canonical + wf + branch, wf, |canonical| + |wf|)
    ensures NoSecondCopy(wf, branch) <==> Deepest(canonical + wf + branch, wf, |canonical| + |wf|)
  {
    var root, base := canonical + wf + branch, |canonical| + |wf|;
    forall j | 0 <= j < |branch| ensures Match(root, wf, base + j) <==> EndsIn(wf + branch[..j], wf) {
      MatchesOfSet(canonical, wf, branch, j);
    }
    assert wf + branch[..0] == wf;
    forall k | base < k < |root| ensures Match(root, wf, k) <==> EndsIn(wf + branch[..k - base], wf) {
      assert k == base + (k - base);
    }
  }

  lemma DeepestIsUnique(root: Segments, wf: Segments, m: nat, n: nat)
    requires Deepest(root, wf, m) && Deepest(root, wf, n)
    ensures m == n
  {
  }

  lemma FrontOfConcat(a: Segments, b: Segments, c: Segments)
    ensures (a + b + c)[..|a|] == a
  {
  }

  lemma SetPath(canonical: Segments, wf: Segments, branch: Segments)
    requires Plain(canonical) && Plain(wf) && Plain(branch)
    ensures Plain(canonical + wf + branch)
  {
    PlainConcat(canonical, wf);
    PlainConcat(canonical + wf, branch);
  }

  /** The location is a canonical ancestor exactly when that one holds the deepest match. */
  lemma LocatedAt(root: Segments, canonical: Segments, wf: Segments, r: Location)
    requires Plain(root) && Plain(canonical) && |canonical| <= |root| && root[..|canonical|] == canonical
    requires RelativeResult(root, wf, r) && r.inside
    ensures r.canonical != "/"
    ensures r.canonical == Text(canonical) <==> Deepest(root, wf, |canonical| + |wf|)
  {
    var front := CutAt(root, canonical, wf, r);
    SameText(front, canonical);
    TextIsNotTheRoot(front);
  }

  lemma SameText(a: Segments, b: Segments)
    requires Plain(a) && Plain(b)
    ensures Text(a) == Text(b) <==> a == b
  {
    if Text(a) == Text(b) { TextInjective(a, b); }
  }

  lemma CutAt(root: Segments, canonical: Segments, wf: Segments, r: Location) returns (front: Segments)
    requires Plain(root) && |canonical| <= |root| && root[..|canonical|] == canonical
    requires RelativeResult(root, wf, r) && r.inside
    ensures Plain(front) && r.canonical == Text(front)
    ensures front == canonical <==> Deepest(root, wf, |canonical| + |wf|)
  {
    var n: nat :| Deepest(root, wf, n) && r.canonical == Text(root[..n - |wf|]);
    OneDeepest(root, wf, n, |canonical| + |wf|);
    front := root[..n - |wf|];
    PlainPart(root, n - |wf|);
    assert |front| == n - |wf|;
  }

  lemma OneDeepest(root: Segments, wf: Segments, n: nat, m: nat)
    requires Deepest(root, wf, n)
    ensures Deepest(root, wf, m) <==> n == m
  {
    if Deepest(root, wf, m) { DeepestIsUnique(root, wf, n, m); }
  }

  // Where the sets are: paths are joined and cleaned segment by segment.

  function Enter(base: Segments, x: string): Segments {
    if x == "." then base
    else if x == ".." then (if base == [] then [] else base[..|base| - 1])
    else base + [x]
  }

  function Join(base: Segments, rel: Segments): Segments {
    if rel == [] then base else Enter(Join(base, rel[..|rel| - 1]), rel[|rel| - 1])
  }

  /** The root of the set for a branch. */
  function SetRoot(canonical: Segments, wf: Segments, branch: Segments): Segments {
    Join(Join(canonical, wf), branch)
  }

  lemma {:induction false} JoinClean(base: Segments, rel: Segments)
    requires Clean(rel)
    ensures Join(base, rel) == base + rel
    decreases |rel|
  {
    if rel == [] {
      assert base + rel == base;
    } else {
      var init, x := rel[..|rel| - 1], rel[|rel| - 1];
      assert rel == init + [x];
      PlainPart(rel, |init|);
      JoinClean(base, init);
      assert base + init + [x] == base + rel;
    }
  }

  lemma EnterIsClean(base: Segments, x: string)
    requires Clean(base) && x != "" && '/' !in x
    ensures Clean(Enter(base, x))
  {
    if x == ".." && base != [] { PlainPart(base, |base| - 1); }
  }

  lemma {:induction false} JoinIsClean(base: Segments, rel: Segments)
    requires Clean(base) && Plain(rel)
    ensures Clean(Join(base, rel))
    decreases |rel|
  {
    if rel != [] {
      assert rel[|rel| - 1] in rel;
      PlainPart(rel, |rel| - 1);
      JoinIsClean(base, rel[..|rel| - 1]);
      EnterIsClean(Join(base, rel[..|rel| - 1]), rel[|rel| - 1]);
    }
  }

  lemma RelativeIsPlain(segs: Segments)
    requires CleanRelative(segs)
    ensures Plain(segs)
  {
    if segs != ["."] {
      var k: nat :| k <= |segs| && Parents(segs, k) && Clean(segs[k..]);
      forall x | x in segs ensures x != "" && '/' !in x {
        var i :| 0 <= i < |segs| && segs[i] == x;
        if i >= k { assert segs[k..][i - k] == x; }
      }
    }
  }

  /** A directory that is . or begins with .. never matches: no cleaned root passes through such a segment. */
  lemma DottedNeverMatches(root: Segments, wf: Segments, r: Location)
    requires Clean(root) && Plain(wf) && !Clean(wf) && RelativeResult(root, wf, r)
    ensures r == Location("", false)
  {
    forall n: nat ensures !Match(root, wf, n) {
      MatchedSegments(root, wf, n, ".");
      MatchedSegments(root, wf, n, "..");
    }
  }

  lemma MatchedSegments(root: Segments, wf: Segments, n: nat, x: string)
    ensures Match(root, wf, n) && x in wf ==> x in root
  {
    if Match(root, wf, n) && x in wf {
      var i :| 0 <= i < |wf| && wf[i] == x;
      assert root[n - |wf| + i] == root[..n][n - |wf|..][i] == x;
    }
  }

  lemma CleanSetIsLocated(canonical: Segments, wf: Segments, branch: Segments, r: Location)
    requires Clean(canonical) && Clean(wf) && Clean(branch) && wf != [] && branch != []
    requires RelativeResult(canonical + wf + branch, wf, r)
    ensures r.inside
    ensures r.canonical == Text(canonical) <==> NoSecondCopy(wf, branch)
    ensures r.canonical == AbsPath(canonical) <==> canonical != [] && NoSecondCopy(wf, branch)
  {
    DeepestOfSet(canonical, wf, branch);
    SetPath(canonical, wf, branch);
    FrontOfConcat(canonical, wf, branch);
    assert r.inside;
    LocatedAt(canonical + wf + branch, canonical, wf, r);
  }

  /** A set made for a branch of any depth is recognised exactly when the directory is neither . nor begins with
      ..; and it is located at its canonical root exactly when, besides, that is not the file system root, whose
      path comes out empty, and the branch begins no second copy of the directory behind the first. */
  lemma SetIsLocated(canonical: Segments, wf: Segments, branch: Segments, r: Location)
    requires Clean(canonical) && CleanRelative(wf) && Clean(branch) && branch != []
    requires RelativeResult(SetRoot(canonical, wf, branch), wf, r)
    ensures r.inside <==> Clean(wf)
    ensures r == Location(AbsPath(canonical), true) <==> Clean(wf) && canonical != [] && NoSecondCopy(wf, branch)
    ensures Clean(wf) ==> (r.canonical == Text(canonical) <==> NoSecondCopy(wf, branch))
    ensures !Clean(wf) ==> r.canonical == ""
  {
    RelativeIsPlain(wf);
    JoinClean(Join(canonical, wf), branch);
    if Clean(wf) {
      JoinClean(canonical, wf);
      CleanSetIsLocated(canonical, wf, branch, r);
    } else {
      JoinIsClean(canonical, wf);
      JoinIsClean(Join(canonical, wf), branch);
      DottedNeverMatches(SetRoot(canonical, wf, branch), wf, r);
    }
  }

  lemma TextIsNotTheRoot(segs: Segments)
    requires Plain(segs)
    ensures Text(segs) != "/"
  {
    if segs != [] { TextStarts(segs); }
  }

  /** For a directory of one segment that is to say that the branch does not pass through its name. */
  lemma OneSegmentCopies(name: string, branch: Segments)
    requires branch != []
    ensures NoSecondCopy([name], branch) <==> name !in branch[..|branch| - 1]
  {
    var wf := [name];
    forall j | 0 < j < |branch| ensures EndsIn(wf + branch[..j], wf) <==> branch[j - 1] == name {
      assert (wf + branch[..j])[j..] == [branch[j - 1]];
    }
    if name in branch[..|branch| - 1] {
      var k :| 0 <= k < |branch| - 1 && branch[k] == name;
      assert EndsIn(wf + branch[..k + 1], wf);
    }
  }

  /** A set directly below the file system root: for the root /wf/b the canonical root comes out as the
      empty path, not as /. */
  lemma SetBelowTheFileSystemRoot(r: Location)
    requires RelativeResult(["wf", "b"], ["wf"], r)
    ensures AbsPath(["wf", "b"]) == "/wf/b" && RelPath(["wf"]) == "wf" && AbsPath([]) == "/"
    ensures NoSecondCopy(["wf"], ["b"]) && r == Location("", true)
  {
    TwoTexts("wf", "b");
    DeepestOfSet([], ["wf"], ["b"]);
    assert [] + ["wf"] + ["b"] == ["wf", "b"];
    var n: nat :| Deepest(["wf", "b"], ["wf"], n) && r.canonical == Text(["wf", "b"][..n - 1]);
    DeepestIsUnique(["wf", "b"], ["wf"], n, 1);
  }

  /** A directory outside the canonical root: for the canonical root /w/c, the directory ../sets and the branch
      b the set is /w/sets/b, and it is not recognised. */
  lemma SetOutsideItsRoot(r: Location)
    requires RelativeResult(SetRoot(["w", "c"], ["..", "sets"], ["b"]), ["..", "sets"], r)
    ensures AbsPath(["w", "c"]) == "/w/c" && RelPath(["..", "sets"]) == "../sets"
    ensures AbsPath(SetRoot(["w", "c"], ["..", "sets"], ["b"])) == "/w/sets/b"
    ensures r == Location("", false)
  {
    TwoTexts("w", "c");
    TwoTexts("..", "sets");
    TwoTexts("w", "sets");
    assert ["..", "sets"][..1] == [".."] && [".."][..0] == [] && ["b"][..0] == [];
    assert Join(["w", "c"], [".."]) == ["w"] && Join(["w", "c"], ["..", "sets"]) == ["w", "sets"];
    assert SetRoot(["w", "c"], ["..", "sets"], ["b"]) == ["w", "sets"] + ["b"] == ["w", "sets", "b"];
    TextSnoc(["w", "sets"], "b");
    assert "/../sets"[1..] == "../sets";
    DottedNeverMatches(["w", "sets", "b"], ["..", "sets"], r);
  }

  lemma TwoTexts(x: string, y: string)
    ensures Text([x]) == "/" + x && Text([x, y]) == "/" + x + "/" + y
  {
    assert [x][..0] == [] && [x, y][..1] == [x];
    assert "" + "/" + x == "/" + x;
  }

  lemma OverlappingTexts()
    ensures Text(["a", "a"]) == "/a/a" && Text(["c", "a"]) == "/c/a" && Text(["c"]) == "/c"
    ensures Text(["c"] + ["a", "a"] + ["a", "x"]) == "/c/a/a/a/x"
  {
    TwoTexts("c", "a");
    TwoTexts("a", "a");
    TwoTexts("a", "x");
    TextConcat(["c"], ["a", "a"]);
    TextConcat(["c"] + ["a", "a"], ["a", "x"]);
  }

  lemma OverlappingMatch()
    ensures Deepest(["c"] + ["a", "a"] + ["a", "x"], ["a", "a"], 4)
  {
    var root := ["c"] + ["a", "a"] + ["a", "x"];
    assert root == ["c", "a", "a", "a", "x"] && root[..4][2..] == ["a", "a"];
  }

  /** A branch that does not contain the directory may still complete a second copy of it: for the canonical
      root /c, the directory a/a and the branch a/x, that is for the root /c/a/a/a/x, the canonical root
      comes out as /c/a. */
  lemma OverlappingCopy(r: Location)
    requires RelativeResult(["c"] + ["a", "a"] + ["a", "x"], ["a", "a"], r)
    ensures AbsPath(["c"] + ["a", "a"] + ["a", "x"]) == "/c/a/a/a/x" && RelPath(["a", "a"]) == "a/a"
    ensures !EndsIn(["a", "x"], ["a", "a"]) && !EndsIn(["a", "x"][..1], ["a", "a"])
    ensures !NoSecondCopy(["a", "a"], ["a", "x"])
    ensures r == Location("/c/a", true) && AbsPath(["c"]) == "/c"
  {
    var canonical, wf, branch := ["c"], ["a", "a"], ["a", "x"];
    OverlappingTexts();
    OverlappingMatch();
    var root := canonical + wf + branch;
    var n: nat :| Deepest(root, wf, n) && r.canonical == Text(root[..n - 2]);
    DeepestIsUnique(root, wf, n, 4);
    assert root[..2] == ["c", "a"];
    assert "/a/a"[1..] == "a/a";
    assert branch[0..] == branch && branch[1] == "x";
    MatchesOfSet(canonical, wf, branch, 1);
  }

  // ---------------------------------------------------------------- an absolute directory

  lemma {:induction false} FirstSegmentsAgree(x: string, s: string, y: string, t: string)
    requires '/' !in x && '/' !in y && (s == "" || s[0] == '/') && t != "" && t[0] == '/'
    ensures HasPrefix(x + s, y + t) <==> x == y && HasPrefix(s, t)
    decreases x
  {
    if x == "" {
      assert x + s == s;
      if y != "" { assert (y + t)[0] == y[0]; } else { assert y + t == t; }
    } else if y == "" {
      assert y + t == t && (x + s)[0] == x[0];
    } else {
      assert x + s == [x[0]] + (x[1..] + s) && y + t == [y[0]] + (y[1..] + t);
      FirstSegmentsAgree(x[1..], s, y[1..], t);
      PrefixCons(x[0], x[1..] + s, y[0], y[1..] + t);
      assert x == [x[0]] + x[1..] && y == [y[0]] + y[1..];
    }
  }

  lemma PrefixCons(a: char, s: string, b: char, t: string)
    ensures HasPrefix([a] + s, [b] + t) <==> a == b && HasPrefix(s, t)
  {
    if |t| <= |s| {
      assert ([a] + s)[..1 + |t|] == [a] + s[..|t|];
      assert ([a] + s[..|t|])[1..] == s[..|t|] && ([b] + t)[1..] == t;
    }
  }

  lemma {:induction false} PrefixOnSegments(segs: Segments, wf: Segments)
    requires Plain(segs) && Plain(wf)
    ensures HasPrefix(Text(segs), Text(wf) + "/") <==> |wf| < |segs| && segs[..|wf|] == wf
    decreases wf
  {
    if segs != [] { TextStarts(segs); }
    if segs != [] && wf != [] {
      PlainPart(segs, 1);
      PlainPart(wf, 1);
      FirstOfBoth(segs, wf);
      PrefixOnSegments(segs[1..], wf[1..]);
      if |wf| < |segs| { assert segs[..|wf|] == [segs[0]] + segs[1..][..|wf| - 1] && wf == [wf[0]] + wf[1..]; }
    }
  }

  lemma FirstOfBoth(segs: Segments, wf: Segments)
    requires Plain(segs) && Plain(wf) && segs != [] && wf != []
    ensures HasPrefix(Text(segs), Text(wf) + "/") <==>
      segs[0] == wf[0] && HasPrefix(Text(segs[1..]), Text(wf[1..]) + "/")
  {
    var x, s, y, w := segs[0], segs[1..], wf[0], wf[1..];
    assert x in segs && y in wf;
    TextCons(segs);
    TextCons(wf);
    if s != [] { TextStarts(s); }
    if w != [] { TextStarts(w); }
    assert Text(wf) + "/" == ['/'] + (y + (Text(w) + "/"));
    PrefixCons('/', x + Text(s), '/', y + (Text(w) + "/"));
    FirstSegmentsAgree(x, Text(s), y, Text(w) + "/");
  }

  lemma TextCons(segs: Segments)
    requires segs != []
    ensures Text(segs) == ['/'] + (segs[0] + Text(segs[1..]))
  {
    assert segs == [segs[0]] + segs[1..];
    TextConcat([segs[0]], segs[1..]);
    assert [segs[0]][..0] == [] && Text([segs[0]]) == "" + "/" + segs[0];
  }

  predicate StrictlyBelow(root: Segments, wf: Segments) {
    |wf| < |root| && root[..|wf|] == wf
  }

  /** Strictly below the directory, unless it is the file system root, below which nothing is recognised. */
  predicate AbsoluteResult(root: Segments, wf: Segments, r: Location) {
    r == Location("", wf != [] && StrictlyBelow(root, wf))
  }

  /** For an absolute workforests directory. What the code promises, inside if and only if strictly below
      it, holds exactly when the directory is not the file system root or the root is that itself. */
  method LocateAbsolute(root: string, wf: string, ghost rs: Segments, ghost ws: Segments) returns (r: Location)
    requires Plain(rs) && Plain(ws) && root == AbsPath(rs) && wf == AbsPath(ws)
    ensures AbsoluteResult(rs, ws, r)
    ensures (r.inside <==> StrictlyBelow(rs, ws)) <==> ws != [] || rs == []
  {
    if ws != [] { PrefixOnSegments(rs, ws); } else { NoDoubleSlash(rs); }
    if rs == [] && ws != [] { TextStarts(ws); }
    if root != wf && HasPrefix(root, wf + "/") {
      return Location("", true);
    }
    return Location("", false);
  }

  /** A set made below an absolute directory is recognised unless that is the file system root. */
  lemma AbsoluteSetIsRecognised(wf: Segments, branch: Segments, r: Location)
    requires Clean(wf) && Clean(branch) && branch != [] && AbsoluteResult(Join(wf, branch), wf, r)
    ensures StrictlyBelow(Join(wf, branch), wf) && r == Location("", wf != [])
  {
    JoinClean(wf, branch);
    assert (wf + branch)[..|wf|] == wf;
  }

  /** The absolute directory / and the root /x below it. */
  method NothingBelowTheFileSystemRoot() returns (r: Location)
    ensures r == Location("", false) && StrictlyBelow(["x"], []) && AbsPath(["x"]) == "/x" && AbsPath([]) == "/"
  {
    TwoTexts("x", "x");
    r := LocateAbsolute("/x", "/", ["x"], []);
  }

  lemma NoDoubleSlash(segs: Segments)
    requires Plain(segs)
    ensures !HasPrefix(AbsPath(segs), "//")
  {
    if segs != [] {
      TextCons(segs);
      assert segs[0] in segs;
      assert Text(segs)[1] == segs[0][0];
    }
  }

  method WorkforestLocation(root: string, wf: string, ghost rs: Segments, ghost ws: Segments) returns (r: Location)
    requires Plain(rs) && Plain(ws) && root == AbsPath(rs)
    requires wf == AbsPath(ws) || (ws != [] && wf == RelPath(ws))
    ensures wf == AbsPath(ws) ==> AbsoluteResult(rs, ws, r)
    ensures wf != AbsPath(ws) ==> RelativeResult(rs, ws, r)
  {
    FirstChar(ws);
    if wf[0] == '/' {
      r := LocateAbsolute(root, wf, rs, ws);
    } else {
      r := LocateRelative(root, wf, rs, ws);
    }
  }

  lemma FirstChar(ws: Segments)
    requires Plain(ws)
    ensures AbsPath(ws) != "" && AbsPath(ws)[0] == '/'
    ensures ws != [] ==> RelPath(ws) != "" && RelPath(ws)[0] != '/'
  {
    if ws != [] {
      TextCons(ws);
      assert ws[0] in ws;
    }
  }

  /** The canonical root. For an absolute directory it is the empty path strictly below that and the root
      elsewhere. For a relative one it is the prefix of the deepest match, which is the empty path too for a
      match at the top of the file system, and the root where nothing matches; that is everywhere when the
      directory is . or begins with .., in a set of it as well. */
  method CanonicalRoot(root: string, wf: string, ghost rs: Segments, ghost ws: Segments) returns (canonical: string)
    requires Plain(rs) && Plain(ws) && root == AbsPath(rs)
    requires wf == AbsPath(ws) || (ws != [] && wf == RelPath(ws))
    ensures wf != AbsPath(ws) && Clean(rs) && !Clean(ws) ==> canonical == root
    ensures wf == AbsPath(ws) ==> canonical == if ws != [] && StrictlyBelow(rs, ws) then "" else root
    ensures wf != AbsPath(ws) ==>
      && (canonical == root || exists n: nat :: Deepest(rs, ws, n) && canonical == Text(rs[..n - |ws|]))
      && (canonical == root <==> forall n: nat :: !Match(rs, ws, n))
      && (canonical == "" <==> Deepest(rs, ws, |ws|))
  {
    FirstChar(ws);
    FirstChar(rs);
    var l := WorkforestLocation(root, wf, rs, ws);
    if wf != AbsPath(ws) && Clean(rs) && !Clean(ws) { DottedNeverMatches(rs, ws, l); }
    if !l.inside { return root; }
    if wf != AbsPath(ws) {
      ShorterCanonical(rs, ws, l);
      EmptyCanonical(rs, ws, l);
    }
    return l.canonical;
  }

  lemma EmptyCanonical(rs: Segments, ws: Segments, r: Location)
    requires Plain(rs) && ws != [] && RelativeResult(rs, ws, r) && r.inside
    ensures r.canonical == "" <==> Deepest(rs, ws, |ws|)
  {
    assert rs[..0] == [];
    LocatedAt(rs, [], ws, r);
  }

  lemma ShorterCanonical(rs: Segments, ws: Segments, r: Location)
    requires Plain(rs) && ws != [] && RelativeResult(rs, ws, r) && r.inside
    ensures r.canonical != AbsPath(rs)
  {
    var n: nat :| Deepest(rs, ws, n) && r.canonical == Text(rs[..n - |ws|]);
    PlainPart(rs, n - |ws|);
    TextInjectiveApart(rs, n - |ws|);
  }

  lemma TextInjectiveApart(rs: Segments, n: nat)
    requires Plain(rs) && n < |rs|
    ensures Text(rs[..n]) != Text(rs)
  {
    PlainPart(rs, n);
    if Text(rs[..n]) == Text(rs) { TextInjective(rs[..n], rs); }
  }
}
