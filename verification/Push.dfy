/** Publishing the workspace: relock each repository's sibling inputs, then push it, in one ordered walk. */
module Push {
  // Git and nix are abstract. A relock pins an alias to the current remote tip of its target; a push publishes HEAD.
  // Every command can fail: a Fate says which ones do when a repository is visited.

  import opened Basics
  import opened Names
  import Digraph
  import opened Dag
  import opened Edges
  import opened LockFile

  type Rev = nat

  // revs: the locked rev of each input with a lock node of its own; other: the rest of the file.
  datatype FlakeLock = FlakeLock(revs: map<Name, Rev>, other: nat)

  datatype Repo = Repo(
    cloned: bool,
    upstream: bool,           // the branch has an upstream
    remoteResolves: bool,     // a remote for push -u can be chosen
    follows: set<Name>,       // inputs without a lock node of their own
    head: Rev, headLock: Option<FlakeLock>,
    workLock: Option<FlakeLock>, staged: bool, otherChanges: bool,
    tip: Rev, tipLock: Option<FlakeLock>)

  datatype Publish = Publish(name: Name, rev: Rev, lock: Option<FlakeLock>)

  datatype World = World(repos: map<Name, Repo>, nextRev: Rev, log: seq<Publish>)

  // probeFails: the probe for a rewritten lock fails, or reports one that is not tracked. leftLock, leftStaged: what
  // a command that fails leaves of the lock file and of the index. pushLands: a push that fails has reached
  // the remote all the same.
  datatype Fate = Fate(
    statusFails: bool, beforeUnreadable: bool, updateFails: bool, churn: nat, probeFails: bool,
    afterUnreadable: bool, openFails: bool, restoreFails: bool, addFails: bool, commitFails: bool,
    resetFails: bool, leftLock: Option<FlakeLock>, leftStaged: bool,
    branchFails: bool, pushFails: bool, pushLands: bool)

  const NO_FAILURE := Fate(
    false, false, false, 0, false, false, false, false, false, false, false, None, false, false, false, false)

  datatype Propagated = Unchanged | Bumped | Failed

  /** Git sees the lock file only when HEAD has one; an untracked one is not looked at. */
  predicate SeesLock(r: Repo, lock: Option<FlakeLock>) {
    r.headLock.Some? && lock != r.headLock
  }

  /** No tracked file differs from HEAD. */
  predicate Clean(r: Repo) {
    !r.otherChanges && !r.staged && !SeesLock(r, r.workLock)
  }

  // ---------------------------------------------------------------- relocking one repository

  /** The lock nix writes: pinned inputs move to their targets' tips, followed ones are skipped. */
  function Relocked(r: Repo, pins: map<Name, Rev>, churn: nat): FlakeLock
    requires r.workLock.Some?
  {
    FlakeLock(r.workLock.value.revs + (pins - r.follows), churn)
  }

  function RevOf(lock: FlakeLock, alias: Name): Option<Rev> {
    if alias in lock.revs then Some(lock.revs[alias]) else None
  }

  function Moved(before: FlakeLock, after: FlakeLock, aliases: set<Name>): set<Name> {
    set a | a in aliases && RevOf(before, a) != RevOf(after, a)
  }

  function Propagate(r: Repo, pins: map<Name, Rev>, fate: Fate, newRev: Rev): (Repo, Propagated) {
    if pins == map[] || r.workLock.None? then (r, Unchanged)
    else if fate.beforeUnreadable then (r, Failed)
    else if fate.updateFails then (r.(workLock := fate.leftLock), Failed)
    else
      var before, after := r.workLock.value, Relocked(r, pins, fate.churn);
      if !SeesLock(r, Some(after)) && !fate.probeFails then (r.(workLock := Some(after)), Unchanged)
      else if fate.afterUnreadable then (r.(workLock := Some(after)), Failed)
      else if Moved(before, after, pins.Keys) == {} then Restored(r, after, fate)
      else CommittedBump(r, after, fate, newRev)
  }

  /** The lock was rewritten, but no rev moved; one that HEAD does not have cannot be put back. */
  function Restored(r: Repo, after: FlakeLock, fate: Fate): (Repo, Propagated) {
    if fate.openFails then (r.(workLock := Some(after)), Failed)
    else if fate.restoreFails then (r.(workLock := fate.leftLock), Failed)
    else if r.headLock.None? then (r.(workLock := Some(after)), Unchanged)
    else (r.(workLock := r.headLock), Unchanged)
  }

  function CommittedBump(r: Repo, after: FlakeLock, fate: Fate, newRev: Rev): (Repo, Propagated) {
    if fate.openFails then (r.(workLock := Some(after)), Failed)
    else if fate.addFails then (r.(workLock := Some(after), staged := fate.leftStaged), Failed)
    else if fate.commitFails then
      if fate.resetFails then (r.(workLock := fate.leftLock, staged := fate.leftStaged), Failed)
      else (r.(workLock := r.headLock, staged := false, otherChanges := false), Failed)
    else (r.(workLock := Some(after), head := newRev, headLock := Some(after)), Bumped)
  }

  /** The branches in which a relock gives up with something else among the tracked files than it found: a
      failed update, restore, add or reset that left another lock or something staged; and a rewritten lock when
      that cannot be read, when the repository cannot be opened, or when it cannot be added. */
  predicate GivesUpDirty(r: Repo, pins: map<Name, Rev>, fate: Fate) {
    && pins != map[] && r.workLock.Some? && !fate.beforeUnreadable
    && if fate.updateFails then SeesLock(r, fate.leftLock)
       else
         var after := Relocked(r, pins, fate.churn);
         var rewritten := SeesLock(r, Some(after));
         if !rewritten && !fate.probeFails then false
         else if fate.afterUnreadable || fate.openFails then rewritten
         else if Moved(r.workLock.value, after, pins.Keys) == {} then fate.restoreFails && SeesLock(r, fate.leftLock)
         else if fate.addFails then rewritten || fate.leftStaged
         else fate.commitFails && fate.resetFails && (fate.leftStaged || SeesLock(r, fate.leftLock))
  }

  /** A relock started on a clean tree ends on one, except in exactly those branches; and unless it
      committed a bump, a clean end is the state it started from, an untracked lock aside. */
  lemma RelockLeavesTreeClean(r: Repo, pins: map<Name, Rev>, fate: Fate, newRev: Rev)
    requires Clean(r)
    ensures var (r', p) := Propagate(r, pins, fate, newRev);
      && (Clean(r') <==> !GivesUpDirty(r, pins, fate))
      && (Clean(r') && !p.Bumped? ==> r' == r.(workLock := r'.workLock) && (r.headLock.Some? ==> r' == r))
      && (GivesUpDirty(r, pins, fate) ==> p.Failed?)
  {
    if r.workLock.Some? && r.workLock == Some(Relocked(r, pins, fate.churn)) {
      assert Moved(r.workLock.value, Relocked(r, pins, fate.churn), pins.Keys) == {};
    }
  }

  /** The comment on the relock promises that no error leaves a dirty tree; a failing git add does. */
  lemma FailedAddLeavesDirtyTree()
    ensures var lock := FlakeLock(map["dep" := 1], 0);
      var r := Repo(true, true, true, {}, 5, Some(lock), Some(lock), false, false, 5, Some(lock));
      var (r', p) := Propagate(r, map["dep" := 2], NO_FAILURE.(addFails := true), 9);
      Clean(r) && p.Failed? && !Clean(r')
  {
    var lock := FlakeLock(map["dep" := 1], 0);
    var r := Repo(true, true, true, {}, 5, Some(lock), Some(lock), false, false, 5, Some(lock));
    var after := Relocked(r, map["dep" := 2], 0);
    assert after.revs["dep"] == 2;
    assert "dep" in Moved(lock, after, {"dep"});
    assert (map["dep" := 2]).Keys == {"dep"};
  }

  // ---------------------------------------------------------------- visiting one repository

  /** Each workspace alias of the consumer, with the rev its target's remote has now. */
  function Pins(repos: map<Name, Repo>, edges: seq<LockEdge>, consumer: Name): map<Name, Rev> {
    if edges == [] then map[]
    else
      var rest := Pins(repos, edges[1..], consumer);
      var e := edges[0];
      if e.consumer == consumer && e.target in repos then rest[e.alias := repos[e.target].tip] else rest
  }

  datatype Visit = Done | Abort

  function Relock(w: World, edges: seq<LockEdge>, name: Name, fate: Fate): (World, Visit)
    requires name in w.repos
  {
    var r := w.repos[name];
    var pins := Pins(w.repos, edges, name);
    if pins == map[] || !r.cloned then (w, Done)
    else if fate.statusFails || !Clean(r) then (w, Abort)
    else
      var (r', p) := Propagate(r, pins, fate, w.nextRev);
      (w.(repos := w.repos[name := r'], nextRev := w.nextRev + 1), if p.Failed? then Abort else Done)
  }

  function Publication(w: World, name: Name): World
    requires name in w.repos
  {
    var r := w.repos[name];
    w.(repos := w.repos[name := r.(tip := r.head, tipLock := r.headLock, upstream := true)],
       log := w.log + [Publish(name, r.head, r.headLock)])
  }

  /** A push that failed after the remote had taken the commits. */
  function Landed(w: World, name: Name): World
    requires name in w.repos
  {
    var r := w.repos[name];
    w.(repos := w.repos[name := r.(tip := r.head, tipLock := r.headLock)],
       log := w.log + [Publish(name, r.head, r.headLock)])
  }

  function FailedPush(w: World, name: Name, fate: Fate): World
    requires name in w.repos
  {
    if fate.pushLands then Landed(w, name) else w
  }

  function PushOne(w: World, name: Name, setUpstream: bool, fate: Fate): (World, Visit)
    requires name in w.repos
  {
    var r := w.repos[name];
    if r.cloned && r.upstream then
      if fate.pushFails then (FailedPush(w, name, fate), Abort) else (Publication(w, name), Done)
    else if !setUpstream then (w, Done)
    else if !r.cloned || fate.branchFails then (w, Abort)
    else if !r.remoteResolves then (w, Done)
    else if fate.pushFails then (FailedPush(w, name, fate), Abort)
    else (Publication(w, name), Done)
  }

  datatype Run = Run(edges: seq<LockEdge>, propagate: bool, setUpstream: bool, fates: Name -> Fate)

  function VisitRepo(w: World, run: Run, name: Name): (World, Visit)
    requires name in w.repos
  {
    var (w1, v) := if run.propagate then Relock(w, run.edges, name, run.fates(name)) else (w, Done);
    if v.Abort? then (w1, Abort) else PushOne(w1, name, run.setUpstream, run.fates(name))
  }

  // done: how many repositories of the walk finished.
  datatype Outcome = Published | Aborted(done: nat)

  function Walk(w: World, run: Run, names: seq<Name>): (World, Outcome)
    requires Elems(names) <= w.repos.Keys
    decreases names
  {
    if names == [] then (w, Published)
    else
      assert names[0] in Elems(names);
      var (w1, v) := VisitRepo(w, run, names[0]);
      if v.Abort? then (w1, Aborted(0))
      else
        assert Elems(names[1..]) <= Elems(names);
        var (w2, o) := Walk(w1, run, names[1..]);
        (w2, if o.Published? then Published else Aborted(o.done + 1))
  }

  // ---------------------------------------------------------------- what a visit leaves alone

  ghost predicate SameButVisited(w: World, w': World, name: Name) {
    && w'.repos.Keys == w.repos.Keys
    && (forall x | x in w.repos && x != name :: w'.repos[x] == w.repos[x])
    && (name in w.repos ==>
          w'.repos[name].follows == w.repos[name].follows && w'.repos[name].cloned == w.repos[name].cloned)
  }

  /** A relock is local work: the remote and what is known of it stay. */
  predicate LocalWork(r: Repo, r': Repo) {
    && r'.follows == r.follows && r'.cloned == r.cloned && r'.upstream == r.upstream
    && r'.remoteResolves == r.remoteResolves && r'.tip == r.tip && r'.tipLock == r.tipLock
  }

  lemma BumpIsLocalWork(r: Repo, after: FlakeLock, fate: Fate, newRev: Rev)
    ensures LocalWork(r, Restored(r, after, fate).0) && LocalWork(r, CommittedBump(r, after, fate, newRev).0)
  {
  }

  lemma PropagateKeeps(r: Repo, pins: map<Name, Rev>, fate: Fate, newRev: Rev)
    ensures LocalWork(r, Propagate(r, pins, fate, newRev).0)
  {
    if r.workLock.Some? { BumpIsLocalWork(r, Relocked(r, pins, fate.churn), fate, newRev); }
  }

  lemma RelockFacts(w: World, edges: seq<LockEdge>, name: Name, fate: Fate)
    requires name in w.repos
    ensures var (w', v) := Relock(w, edges, name, fate);
      && SameButVisited(w, w', name) && w'.log == w.log
      && var r, r' := w.repos[name], w'.repos[name];
         && r'.tip == r.tip && r'.tipLock == r.tipLock
         && r'.upstream == r.upstream && r'.remoteResolves == r.remoteResolves
         && (v.Done? && r.cloned && Pins(w.repos, edges, name) != map[] ==>
               Clean(r') && PinnedTo(r'.workLock, Pins(w.repos, edges, name), r'.follows))
  {
    var r, pins := w.repos[name], Pins(w.repos, edges, name);
    var (r', p) := Propagate(r, pins, fate, w.nextRev);
    PropagateKeeps(r, pins, fate, w.nextRev);
    if Clean(r) && !p.Failed? {
      PropagatePins(r, pins, fate, w.nextRev);
    }
  }

  lemma PushOneFacts(w: World, name: Name, setUpstream: bool, fate: Fate)
    requires name in w.repos
    ensures var (w', v) := PushOne(w, name, setUpstream, fate);
      && SameButVisited(w, w', name)
      && var r, r' := w.repos[name], w'.repos[name];
         && r'.head == r.head && r'.headLock == r.headLock && r'.workLock == r.workLock && (Clean(r') <==> Clean(r))
         && (v.Done? ==> PushSettled(w', setUpstream, name))
         && ((w'.log == w.log && r'.tip == r.tip)
             || (w'.log == w.log + [Publish(name, r'.head, r'.headLock)] && r'.tip == r'.head && r'.cloned))
  {
  }

  lemma VisitTouchesOnlyItsRepo(w: World, run: Run, name: Name)
    requires name in w.repos
    ensures SameButVisited(w, VisitRepo(w, run, name).0, name)
  {
    var fate := run.fates(name);
    if run.propagate {
      RelockFacts(w, run.edges, name, fate);
      PushOneFacts(Relock(w, run.edges, name, fate).0, name, run.setUpstream, fate);
    } else {
      PushOneFacts(w, name, run.setUpstream, fate);
    }
  }

  lemma {:induction false} WalkTouchesOnlyItsNames(w: World, run: Run, names: seq<Name>)
    requires Elems(names) <= w.repos.Keys
    ensures Walk(w, run, names).0.repos.Keys == w.repos.Keys
    ensures forall x | x in w.repos && x !in names :: Walk(w, run, names).0.repos[x] == w.repos[x]
    ensures Walk(w, run, names).1.Aborted? ==> Walk(w, run, names).1.done < |names|
    decreases names
  {
    if names != [] {
      assert names[0] in Elems(names);
      VisitTouchesOnlyItsRepo(w, run, names[0]);
      var (w1, v) := VisitRepo(w, run, names[0]);
      assert names == [names[0]] + names[1..];
      if v.Done? {
        assert Elems(names[1..]) <= Elems(names);
        WalkTouchesOnlyItsNames(w1, run, names[1..]);
      }
    }
  }

  /** An aborted run has walked exactly the prefix it reports, and touched nothing after the failure. */
  lemma {:induction false} AbortedRunIsAPrefix(w: World, run: Run, names: seq<Name>)
    requires Elems(names) <= w.repos.Keys && Distinct(names) && Walk(w, run, names).1.Aborted?
    ensures var k := Walk(w, run, names).1.done;
      && k < |names| && Elems(names[..k]) <= w.repos.Keys && names[k] in w.repos
      && var (before, o) := Walk(w, run, names[..k]);
         && o.Published? && names[k] in before.repos
         && VisitRepo(before, run, names[k]) == (Walk(w, run, names).0, Abort)
    ensures Walk(w, run, names).0.repos.Keys == w.repos.Keys
    ensures forall x | x in names[Walk(w, run, names).1.done + 1..] ::
      x in w.repos && Walk(w, run, names).0.repos[x] == w.repos[x]
    decreases names
  {
    WalkTouchesOnlyItsNames(w, run, names);
    assert names[0] in Elems(names);
    var (w1, v) := VisitRepo(w, run, names[0]);
    VisitTouchesOnlyItsRepo(w, run, names[0]);
    var k := Walk(w, run, names).1.done;
    forall i | 0 <= i < |names| ensures names[i] in w.repos { assert names[i] in Elems(names); }
    if v.Abort? {
      assert names[..0] == [];
    } else {
      assert Elems(names[1..]) <= Elems(names);
      AbortedRunIsAPrefix(w1, run, names[1..]);
      assert names[1..][..k - 1] == names[..k][1..];
      assert names[1..][k - 1 + 1..] == names[k + 1..];
    }
  }

  // ---------------------------------------------------------------- pins

  lemma {:induction false} PinOfEdge(repos: map<Name, Repo>, edges: seq<LockEdge>, e: LockEdge)
    requires AliasesUnique(edges) && e in edges && e.target in repos
    ensures e.alias in Pins(repos, edges, e.consumer) && Pins(repos, edges, e.consumer)[e.alias] == repos[e.target].tip
  {
    if e != edges[0] {
      assert edges == [edges[0]] + edges[1..];
      var i :| 0 <= i < |edges| && edges[i] == e;
      assert !SameAlias(edges[0], edges[i]);
      PinOfEdge(repos, edges[1..], e);
    }
  }

  lemma {:induction false} PinComesFromEdge(repos: map<Name, Repo>, edges: seq<LockEdge>, consumer: Name, alias: Name)
    requires alias in Pins(repos, edges, consumer)
    ensures exists e :: e in edges && e.consumer == consumer && e.alias == alias && e.target in repos
  {
    var e := edges[0];
    if !(e.consumer == consumer && e.target in repos && e.alias == alias) {
      PinComesFromEdge(repos, edges[1..], consumer, alias);
    }
  }

  ghost predicate PinnedTo(lock: Option<FlakeLock>, pins: map<Name, Rev>, follows: set<Name>) {
    lock.Some? ==> forall a | a in pins && a !in follows :: RevOf(lock.value, a) == Some(pins[a])
  }

  lemma PropagatePins(r: Repo, pins: map<Name, Rev>, fate: Fate, newRev: Rev)
    requires Clean(r) && !Propagate(r, pins, fate, newRev).1.Failed?
    ensures var r' := Propagate(r, pins, fate, newRev).0;
      Clean(r') && PinnedTo(r'.workLock, pins, r.follows) && (r'.headLock.Some? ==> r'.workLock == r'.headLock)
  {
    if pins != map[] && r.workLock.Some? {
      var before, after := r.workLock.value, Relocked(r, pins, fate.churn);
      forall a | a in pins && a !in r.follows
        ensures RevOf(after, a) == Some(pins[a])
        ensures Moved(before, after, pins.Keys) == {} ==> RevOf(before, a) == Some(pins[a])
      {
        assert a in pins - r.follows;
        if a !in Moved(before, after, pins.Keys) { assert RevOf(before, a) == RevOf(after, a); }
      }
    }
  }

  /** A visit whose relock went through: the repository pins its targets' tips as they then were. */
  lemma VisitPins(w: World, run: Run, name: Name)
    requires name in w.repos && run.propagate && Relock(w, run.edges, name, run.fates(name)).1.Done?
    ensures var r' := VisitRepo(w, run, name).0.repos[name];
      var pins := Pins(w.repos, run.edges, name);
      && (r'.cloned && pins != map[] ==> Clean(r') && PinnedTo(r'.workLock, pins, r'.follows))
      && (VisitRepo(w, run, name).1.Done? ==> PushSettled(VisitRepo(w, run, name).0, run.setUpstream, name))
  {
    var fate := run.fates(name);
    RelockFacts(w, run.edges, name, fate);
    PushOneFacts(Relock(w, run.edges, name, fate).0, name, run.setUpstream, fate);
  }

  // ---------------------------------------------------------------- convergence

  /** The walk reaches the consumer when the target will not be visited again. */
  ghost predicate Honoured(names: seq<Name>, e: LockEdge) {
    names != [] && if names[0] == e.consumer then e.target !in names else Honoured(names[1..], e)
  }

  lemma {:induction false} BeforeIsHonoured(names: seq<Name>, e: LockEdge)
    requires Distinct(names) && e.consumer in names
    requires Before(names, e.target, e.consumer) || e.target !in names
    ensures Honoured(names, e)
  {
    assert names == [names[0]] + names[1..];
    if e.target in names {
      var i, j :| 0 <= i < j < |names| && names[i] == e.target && names[j] == e.consumer;
      if i > 0 {
        assert names[1..][i - 1] == e.target && names[1..][j - 1] == e.consumer;
        BeforeIsHonoured(names[1..], e);
      } else {
        assert names[1..][j - 1] == e.consumer;
        assert e.target !in names[1..];
        BeforeIsHonoured(names[1..], e);
      }
    } else if names[0] != e.consumer {
      BeforeIsHonoured(names[1..], e);
    }
  }

  /** Edge e is settled in w: the consumer's lock, which is the committed one if HEAD has one, and its published
      lock if it publishes, pin the rev the target's remote has. */
  ghost predicate EdgePinned(w: World, e: LockEdge) {
    && e.consumer in w.repos && e.target in w.repos
    && var r := w.repos[e.consumer];
       r.cloned && e.alias !in r.follows && r.workLock.Some? ==>
         && RevOf(r.workLock.value, e.alias) == Some(w.repos[e.target].tip)
         && Clean(r) && (r.headLock.Some? ==> r.headLock == r.workLock)
         && (r.upstream ==> r.tip == r.head && r.tipLock == r.headLock)
  }

  lemma {:induction false} WalkPinsEdge(w: World, run: Run, names: seq<Name>, e: LockEdge)
    requires Elems(names) <= w.repos.Keys && Distinct(names) && run.propagate
    requires AliasesUnique(run.edges) && e in run.edges && e.target in w.repos
    requires Honoured(names, e) && Walk(w, run, names).1.Published?
    ensures EdgePinned(Walk(w, run, names).0, e)
    decreases names
  {
    assert names == [names[0]] + names[1..];
    assert names[0] in Elems(names) && Elems(names[1..]) <= Elems(names);
    var (w1, v) := VisitRepo(w, run, names[0]);
    VisitTouchesOnlyItsRepo(w, run, names[0]);
    if names[0] == e.consumer {
      VisitPins(w, run, names[0]);
      PinOfEdge(w.repos, run.edges, e);
      WalkTouchesOnlyItsNames(w1, run, names[1..]);
      assert e.consumer !in names[1..] && e.target !in names[1..];
      assert w1.repos[e.target] == w.repos[e.target];
    } else {
      WalkPinsEdge(w1, run, names[1..], e);
    }
  }

  ghost predicate PushSettled(w: World, setUpstream: bool, n: Name) {
    && n in w.repos
    && var r := w.repos[n];
       && (r.cloned && setUpstream && r.remoteResolves ==> r.upstream)
       && (r.cloned && r.upstream ==> r.tip == r.head && r.tipLock == r.headLock)
  }

  lemma {:induction false} WalkPushes(w: World, run: Run, names: seq<Name>, n: Name)
    requires Elems(names) <= w.repos.Keys && Distinct(names) && run.propagate && n in names
    requires Walk(w, run, names).1.Published?
    ensures PushSettled(Walk(w, run, names).0, run.setUpstream, n)
    ensures n in w.repos && var r := Walk(w, run, names).0.repos[n];
      r.cloned && (exists e :: e in run.edges && e.consumer == n && e.target in w.repos) ==> Clean(r)
    decreases names
  {
    assert names == [names[0]] + names[1..];
    assert names[0] in Elems(names) && Elems(names[1..]) <= Elems(names);
    var (w1, v) := VisitRepo(w, run, names[0]);
    VisitTouchesOnlyItsRepo(w, run, names[0]);
    if n == names[0] {
      VisitPins(w, run, n);
      WalkTouchesOnlyItsNames(w1, run, names[1..]);
      if e :| e in run.edges && e.consumer == n && e.target in w.repos {
        PinExists(w.repos, run.edges, e);
      }
    } else {
      WalkPushes(w1, run, names[1..], n);
    }
  }

  lemma {:induction false} PinExists(repos: map<Name, Repo>, edges: seq<LockEdge>, e: LockEdge)
    requires e in edges && e.target in repos
    ensures e.alias in Pins(repos, edges, e.consumer)
  {
    if e != edges[0] { PinExists(repos, edges[1..], e); }
  }

  /** A world in which another propagating run of the same kind has nothing to do. */
  ghost predicate RepoSettled(w: World, run: Run, n: Name) {
    && PushSettled(w, run.setUpstream, n)
    && var r, pins := w.repos[n], Pins(w.repos, run.edges, n);
       r.cloned && pins != map[] ==> Clean(r) && PinnedTo(r.workLock, pins, r.follows)
  }

  lemma PinnedEdgesSettle(w: World, run: Run, n: Name)
    requires PushSettled(w, run.setUpstream, n) && AliasesUnique(run.edges)
    requires forall e | e in run.edges && e.consumer == n && e.target in w.repos :: EdgePinned(w, e)
    requires w.repos[n].cloned && (exists e :: e in run.edges && e.consumer == n && e.target in w.repos) ==>
      Clean(w.repos[n])
    ensures RepoSettled(w, run, n)
  {
    var r, pins := w.repos[n], Pins(w.repos, run.edges, n);
    forall a | a in pins
      ensures exists e :: e in run.edges && e.consumer == n && e.target in w.repos
      ensures r.cloned && a !in r.follows && r.workLock.Some? ==> RevOf(r.workLock.value, a) == Some(pins[a])
    {
      PinComesFromEdge(w.repos, run.edges, n, a);
      var e :| e in run.edges && e.consumer == n && e.alias == a && e.target in w.repos;
      PinOfEdge(w.repos, run.edges, e);
      assert EdgePinned(w, e);
    }
    if pins != map[] {
      var a :| a in pins;
    }
  }

  ghost predicate SameHistory(w: World, w': World) {
    && w'.repos.Keys == w.repos.Keys
    && forall x | x in w.repos ::
         && w'.repos[x].head == w.repos[x].head && w'.repos[x].headLock == w.repos[x].headLock
         && w'.repos[x].tip == w.repos[x].tip && w'.repos[x].tipLock == w.repos[x].tipLock
  }

  /** The same but for files that are not committed. */
  predicate SameCommits(r: Repo, r': Repo) {
    r' == r.(workLock := r'.workLock, staged := r'.staged, otherChanges := r'.otherChanges)
  }

  lemma SettledPropagate(r: Repo, pins: map<Name, Rev>, fate: Fate, newRev: Rev)
    requires Clean(r) && PinnedTo(r.workLock, pins, r.follows)
    ensures var (r', p) := Propagate(r, pins, fate, newRev);
      SameCommits(r, r') && !p.Bumped?
  {
    if r.workLock.Some? {
      var before, after := r.workLock.value, Relocked(r, pins, fate.churn);
      forall a | a in pins ensures RevOf(before, a) == RevOf(after, a) {}
      assert Moved(before, after, pins.Keys) == {};
    }
  }

  /** Relocking a settled repository commits nothing, and if it goes through leaves it settled. */
  lemma SettledRelock(w: World, run: Run, n: Name, fate: Fate)
    requires RepoSettled(w, run, n)
    ensures var (w', v) := Relock(w, run.edges, n, fate);
      && w'.repos.Keys == w.repos.Keys && (forall x | x in w.repos && x != n :: w'.repos[x] == w.repos[x])
      && SameCommits(w.repos[n], w'.repos[n])
      && (v.Done? ==> RepoSettled(w', run, n))
  {
    var r, pins := w.repos[n], Pins(w.repos, run.edges, n);
    var w' := Relock(w, run.edges, n, fate).0;
    if pins != map[] && r.cloned {
      SettledPropagate(r, pins, fate, w.nextRev);
      if !Propagate(r, pins, fate, w.nextRev).1.Failed? { PropagatePins(r, pins, fate, w.nextRev); }
    }
    PinsByTips(w.repos, w'.repos, run.edges, n);
  }

  /** What is pinned goes by the remotes' tips alone. */
  lemma {:induction false} PinsByTips(a: map<Name, Repo>, b: map<Name, Repo>, edges: seq<LockEdge>, n: Name)
    requires a.Keys == b.Keys && forall x | x in a :: a[x].tip == b[x].tip
    ensures Pins(a, edges, n) == Pins(b, edges, n)
  {
    if edges != [] { PinsByTips(a, b, edges[1..], n); }
  }

  lemma SettledPush(w: World, n: Name, setUpstream: bool, fate: Fate)
    requires PushSettled(w, setUpstream, n)
    ensures var (w', v) := PushOne(w, n, setUpstream, fate);
      SameHistory(w, w') && (v.Done? ==> w'.repos == w.repos)
  {
    UpdateTwice(w.repos, n, w.repos[n], w.repos[n]);
  }

  /** Visiting a settled repository commits nothing and publishes nothing new, whatever fails, and if it goes
      through every settled repository stays settled. */
  lemma SettledVisitChangesNothing(w: World, run: Run, n: Name)
    requires RepoSettled(w, run, n)
    ensures var (w', v) := VisitRepo(w, run, n);
      SameHistory(w, w') && (v.Done? ==> forall m | RepoSettled(w, run, m) :: RepoSettled(w', run, m))
  {
    var w1, v := w, Done;
    if run.propagate {
      var (relocked, how) := Relock(w, run.edges, n, run.fates(n));
      SettledRelock(w, run, n, run.fates(n));
      w1, v := relocked, how;
    }
    if v.Done? {
      SettledPush(w1, n, run.setUpstream, run.fates(n));
      forall m | RepoSettled(w, run, m) ensures RepoSettled(w1, run, m) { PinsByTips(w.repos, w1.repos, run.edges, m); }
      var w2 := PushOne(w1, n, run.setUpstream, run.fates(n)).0;
      forall m | RepoSettled(w1, run, m) && w2.repos == w1.repos ensures RepoSettled(w2, run, m) {}
    }
  }

  lemma {:induction false} SettledWalkChangesNothing(w: World, run: Run, names: seq<Name>)
    requires Elems(names) <= w.repos.Keys && forall n | n in names :: RepoSettled(w, run, n)
    ensures SameHistory(w, Walk(w, run, names).0)
    decreases names
  {
    if names != [] {
      assert names[0] in Elems(names) && Elems(names[1..]) <= Elems(names);
      SettledVisitChangesNothing(w, run, names[0]);
      var (w1, v) := VisitRepo(w, run, names[0]);
      if v.Done? {
        forall n | n in names[1..] ensures RepoSettled(w1, run, n) { assert RepoSettled(w, run, n); }
        SettledWalkChangesNothing(w1, run, names[1..]);
      }
    }
  }

  /** A finished run whose order honours every edge leaves nothing for a second one to commit. */
  lemma SecondRunCommitsNothing(w: World, run: Run, names: seq<Name>, fates2: Name -> Fate)
    requires Elems(names) <= w.repos.Keys && Distinct(names) && run.propagate
    requires AliasesUnique(run.edges) && EndpointsIn(run.edges, Elems(names))
    requires forall e | e in run.edges :: Honoured(names, e)
    requires Walk(w, run, names).1.Published?
    ensures var (w1, _) := Walk(w, run, names);
      Elems(names) <= w1.repos.Keys && SameHistory(w1, Walk(w1, run.(fates := fates2), names).0)
  {
    var (w1, o) := Walk(w, run, names);
    WalkTouchesOnlyItsNames(w, run, names);
    var again := run.(fates := fates2);
    forall n | n in names ensures RepoSettled(w1, again, n) {
      WalkPushes(w, run, names, n);
      forall e | e in run.edges && e.consumer == n && e.target in w1.repos ensures EdgePinned(w1, e) {
        WalkPinsEdge(w, run, names, e);
      }
      PinnedEdgesSettle(w1, again, n);
    }
    SettledWalkChangesNothing(w1, again, names);
  }

  // ---------------------------------------------------------------- published locks

  /** rev was on the remote of t when the run had published log. */
  ghost predicate OnRemote(w0: World, log: seq<Publish>, t: Name, rev: Rev)
  {
    (t in w0.repos && w0.repos[t].tip == rev) || exists i :: 0 <= i < |log| && log[i].name == t && log[i].rev == rev
  }

  ghost predicate PublishedPinsOk(w0: World, edges: seq<LockEdge>, log: seq<Publish>, i: nat)
    requires i < |log|
  {
    log[i].name in w0.repos && log[i].lock.Some? ==>
      forall e | e in edges && e.consumer == log[i].name && e.alias in log[i].lock.value.revs
                 && e.alias !in w0.repos[log[i].name].follows ::
        OnRemote(w0, log[..i], e.target, log[i].lock.value.revs[e.alias])
  }

  ghost predicate LogInv(w0: World, run: Run, w: World) {
    && w.repos.Keys == w0.repos.Keys
    && (forall x | x in w.repos :: w.repos[x].follows == w0.repos[x].follows && w.repos[x].cloned == w0.repos[x].cloned)
    && (forall x | x in w.repos :: OnRemote(w0, w.log, x, w.repos[x].tip))
    && (forall i | 0 <= i < |w.log| :: PublishedPinsOk(w0, run.edges, w.log, i))
  }

  lemma OnRemoteLater(w0: World, log: seq<Publish>, p: Publish, t: Name, rev: Rev)
    requires OnRemote(w0, log, t, rev)
    ensures OnRemote(w0, log + [p], t, rev)
  {
    if !(t in w0.repos && w0.repos[t].tip == rev) {
      var i :| 0 <= i < |log| && log[i].name == t && log[i].rev == rev;
      assert (log + [p])[i] == log[i];
    }
  }

  lemma VisitLog(w: World, run: Run, name: Name)
    requires name in w.repos
    ensures var w' := VisitRepo(w, run, name).0;
      (w'.log == w.log && w'.repos[name].tip == w.repos[name].tip)
      || (w'.log == w.log + [Publish(name, w'.repos[name].head, w'.repos[name].headLock)]
          && w'.repos[name].tip == w'.repos[name].head && w'.repos[name].cloned
          && (run.propagate ==> Relock(w, run.edges, name, run.fates(name)).1.Done?))
  {
    var fate := run.fates(name);
    if run.propagate {
      RelockFacts(w, run.edges, name, fate);
      PushOneFacts(Relock(w, run.edges, name, fate).0, name, run.setUpstream, fate);
    } else {
      PushOneFacts(w, name, run.setUpstream, fate);
    }
  }

  lemma VisitKeepsLogInv(w0: World, w: World, run: Run, name: Name)
    requires LogInv(w0, run, w) && name in w.repos && run.propagate
    requires AliasesUnique(run.edges) && EndpointsIn(run.edges, w0.repos.Keys)
    ensures LogInv(w0, run, VisitRepo(w, run, name).0)
  {
    var (w', v) := VisitRepo(w, run, name);
    VisitTouchesOnlyItsRepo(w, run, name);
    VisitLog(w, run, name);
    if w'.log != w.log {
      var p := Publish(name, w'.repos[name].head, w'.repos[name].headLock);
      forall x | x in w'.repos ensures OnRemote(w0, w'.log, x, w'.repos[x].tip) {
        if x == name { assert w'.log[|w.log|] == p; } else { OnRemoteLater(w0, w.log, p, x, w.repos[x].tip); }
      }
      forall i | 0 <= i < |w'.log| ensures PublishedPinsOk(w0, run.edges, w'.log, i) {
        if i < |w.log| {
          assert w'.log[..i] == w.log[..i] && w'.log[i] == w.log[i];
          assert PublishedPinsOk(w0, run.edges, w.log, i);
        } else {
          assert w'.log[..i] == w.log;
          VisitPins(w, run, name);
          forall e | e in run.edges && e.consumer == name && p.lock.Some? && e.alias in p.lock.value.revs
                     && e.alias !in w0.repos[name].follows
            ensures OnRemote(w0, w.log, e.target, p.lock.value.revs[e.alias])
          {
            PinOfEdge(w.repos, run.edges, e);
            assert RevOf(p.lock.value, e.alias) == Some(w.repos[e.target].tip);
          }
        }
      }
    }
  }

  lemma {:induction false} WalkKeepsLogInv(w0: World, w: World, run: Run, names: seq<Name>)
    requires Elems(names) <= w.repos.Keys && run.propagate && LogInv(w0, run, w)
    requires AliasesUnique(run.edges) && EndpointsIn(run.edges, w0.repos.Keys)
    ensures LogInv(w0, run, Walk(w, run, names).0)
    decreases names
  {
    if names != [] {
      assert names[0] in Elems(names) && Elems(names[1..]) <= Elems(names);
      VisitKeepsLogInv(w0, w, run, names[0]);
      var (w1, v) := VisitRepo(w, run, names[0]);
      if v.Done? { WalkKeepsLogInv(w0, w1, run, names[1..]); }
    }
  }

  /** Every lock a propagating run publishes pins, for each workspace edge, a rev already on the remote. */
  lemma PublishedPinsAreOnRemote(w: World, run: Run, names: seq<Name>)
    requires w.log == [] && Elems(names) <= w.repos.Keys && run.propagate
    requires AliasesUnique(run.edges) && EndpointsIn(run.edges, w.repos.Keys)
    ensures var log := Walk(w, run, names).0.log;
      forall i | 0 <= i < |log| :: PublishedPinsOk(w, run.edges, log, i)
  {
    WalkKeepsLogInv(w, w, run, names);
  }

  // ---------------------------------------------------------------- the workspace order

  /** One finished run in the workspace order: every edge but foundation to non-foundation is pinned
      to what its target's remote has; and if there are no such edges, a second run commits nothing. A run
      in which no command fails finishes exactly when every repository was ready for it. */
  lemma PushConverges(cfg: Repos, w: World, run: Run, fates2: Name -> Fate)
    requires w.repos.Keys == cfg.Keys && run.propagate
    requires AliasesUnique(run.edges) && EndpointsIn(run.edges, cfg.Keys)
    requires Digraph.Acyclic(HonouredRel(cfg, run.edges))
    requires forall e | e in run.edges :: e.consumer != e.target
    ensures var names := TopoOrder(cfg.Keys, OrderingDeps(cfg, run.edges));
      && Elems(names) == w.repos.Keys && Distinct(names)
      && var (w1, o) := Walk(w, run, names);
         && w1.repos.Keys == cfg.Keys
         && (o.Published? ==> forall e | e in run.edges
              && (e.consumer in Foundation(cfg) ==> e.target in Foundation(cfg)) :: EdgePinned(w1, e))
         && (o.Published?
             && (forall e | e in run.edges :: e.consumer in Foundation(cfg) ==> e.target in Foundation(cfg))
             ==> SameHistory(w1, Walk(w1, run.(fates := fates2), names).0))
         && ((forall n | n in cfg :: Quiet(run.fates(n))) ==>
               (o.Published? <==> forall n | n in cfg :: Prepared(w, run, n)))
  {
    var names := TopoOrder(cfg.Keys, OrderingDeps(cfg, run.edges));
    FoundationRule(cfg, run.edges);
    var (w1, o) := Walk(w, run, names);
    WalkTouchesOnlyItsNames(w, run, names);
    forall e | e in run.edges && (e.consumer in Foundation(cfg) ==> e.target in Foundation(cfg))
      ensures Honoured(names, e)
      ensures o.Published? ==> EdgePinned(w1, e)
    {
      assert e.consumer in Elems(names);
      BeforeIsHonoured(names, e);
      if o.Published? { WalkPinsEdge(w, run, names, e); }
    }
    if o.Published? && forall e | e in run.edges :: e.consumer in Foundation(cfg) ==> e.target in Foundation(cfg) {
      SecondRunCommitsNothing(w, run, names, fates2);
    }
    forall n ensures n in names <==> n in cfg { assert n in names <==> n in Elems(names); }
    if forall n | n in cfg :: Quiet(run.fates(n)) { QuietRunFinishesIff(w, run, names); }
  }

  // ---------------------------------------------------------------- which runs finish

  predicate RelockFails(r: Repo, pins: map<Name, Rev>, fate: Fate)
    requires r.workLock.Some?
  {
    var after := Relocked(r, pins, fate.churn);
    || fate.beforeUnreadable || fate.updateFails
    || ((SeesLock(r, Some(after)) || fate.probeFails)
        && (fate.afterUnreadable || fate.openFails
            || if Moved(r.workLock.value, after, pins.Keys) == {} then fate.restoreFails
               else fate.addFails || fate.commitFails))
  }

  /** A relock of these aliases stops the walk: the tree cannot be asked about or is not clean, nix fails, or a
      command fails that the lock nix wrote calls for. */
  predicate RelockStops(r: Repo, pins: map<Name, Rev>, fate: Fate) {
    && pins != map[] && r.cloned
    && (fate.statusFails || !Clean(r) || (r.workLock.Some? && RelockFails(r, pins, fate)))
  }

  /** The repositories that have somewhere to push to, or are given one. */
  predicate Publishes(r: Repo, setUpstream: bool) {
    r.cloned && (r.upstream || (setUpstream && r.remoteResolves))
  }

  function AsPublished(publishes: bool, name: Name, r: Repo): seq<Publish> {
    if publishes then [Publish(name, r.head, r.headLock)] else []
  }

  /** A push stops the walk: git push fails, or an upstream is wanted of a repository that is not cloned or whose
      branch cannot be told. One without an upstream, when none is wanted, is passed over. */
  predicate PushStops(r: Repo, setUpstream: bool, fate: Fate) {
    || (Publishes(r, setUpstream) && fate.pushFails)
    || (setUpstream && !(r.cloned && r.upstream) && (!r.cloned || fate.branchFails))
  }

  predicate Stops(w: World, run: Run, name: Name)
    requires name in w.repos
  {
    || (run.propagate && RelockStops(w.repos[name], Pins(w.repos, run.edges, name), run.fates(name)))
    || PushStops(w.repos[name], run.setUpstream, run.fates(name))
  }

  lemma RelockStopsIff(w: World, edges: seq<LockEdge>, name: Name, fate: Fate)
    requires name in w.repos
    ensures Relock(w, edges, name, fate).1.Abort? <==> RelockStops(w.repos[name], Pins(w.repos, edges, name), fate)
  {
  }

  lemma PushStopsIff(w: World, name: Name, setUpstream: bool, fate: Fate)
    requires name in w.repos
    ensures var (w', v) := PushOne(w, name, setUpstream, fate);
      && (v.Abort? <==> PushStops(w.repos[name], setUpstream, fate))
      && (v.Done? ==> w'.log == w.log + AsPublished(Publishes(w.repos[name], setUpstream), name, w.repos[name]))
  {
    assert w.log + [] == w.log;
  }

  /** A visit fails exactly when it stops the walk. One that goes through publishes what the repository then
      holds, if it has somewhere to push to, and nothing otherwise. */
  lemma VisitStopsIff(w: World, run: Run, name: Name)
    requires name in w.repos
    ensures var (w', v) := VisitRepo(w, run, name);
      && (v.Abort? <==> Stops(w, run, name))
      && (v.Done? ==>
            name in w'.repos
            && w'.log == w.log + AsPublished(Publishes(w.repos[name], run.setUpstream), name, w'.repos[name]))
  {
    var fate := run.fates(name);
    if run.propagate {
      RelockStopsIff(w, run.edges, name, fate);
      RelockFacts(w, run.edges, name, fate);
      var w1 := Relock(w, run.edges, name, fate).0;
      PushStopsIff(w1, name, run.setUpstream, fate);
      PushOneFacts(w1, name, run.setUpstream, fate);
    } else {
      PushStopsIff(w, name, run.setUpstream, fate);
      PushOneFacts(w, name, run.setUpstream, fate);
    }
  }

  /** A relock that goes through commits exactly when an alias it may pin is locked to another rev than its
      target's remote has, and HEAD has the lock; and it changes no other alias. */
  lemma RelockCommitsIff(r: Repo, pins: map<Name, Rev>, fate: Fate, newRev: Rev)
    requires Clean(r) && !Propagate(r, pins, fate, newRev).1.Failed? && !fate.probeFails
    ensures var (r', p) := Propagate(r, pins, fate, newRev);
      && (p.Bumped? <==> r.headLock.Some? && OutOfDate(r, pins))
      && (p.Bumped? ==> r' == r.(head := newRev, headLock := r'.workLock, workLock := r'.workLock))
      && (!p.Bumped? ==> r'.head == r.head && r'.headLock == r.headLock)
      && (r.workLock.Some? <==> r'.workLock.Some?)
      && (r.workLock.Some? ==> forall a | a !in pins || a in r.follows ::
            RevOf(r'.workLock.value, a) == RevOf(r.workLock.value, a))
  {
    if r.workLock.Some? && pins != map[] {
      var before, after := r.workLock.value, Relocked(r, pins, fate.churn);
      forall a | a in pins
        ensures a in Moved(before, after, pins.Keys) <==> a !in r.follows && RevOf(before, a) != Some(pins[a])
      {
        if a !in r.follows { assert a in pins - r.follows; }
      }
      if OutOfDate(r, pins) {
        var a :| a in pins && a !in r.follows && RevOf(before, a) != Some(pins[a]);
        assert a in Moved(before, after, pins.Keys);
      }
      if Moved(before, after, pins.Keys) != {} {
        var a :| a in Moved(before, after, pins.Keys);
      }
    }
  }

  /** Some alias that nix may pin is not locked to the rev it should be. */
  ghost predicate OutOfDate(r: Repo, pins: map<Name, Rev>) {
    r.workLock.Some? && exists a :: a in pins && a !in r.follows && RevOf(r.workLock.value, a) != Some(pins[a])
  }

  /** None of the commands that a walk heeds fails. */
  predicate Quiet(f: Fate) {
    !(f.statusFails || f.beforeUnreadable || f.updateFails || f.afterUnreadable || f.openFails || f.restoreFails
      || f.addFails || f.commitFails || f.branchFails || f.pushFails)
  }

  ghost predicate HasSiblings(w: World, edges: seq<LockEdge>, n: Name) {
    exists e :: e in edges && e.consumer == n && e.target in w.repos
  }

  /** What the user has to see to before a run: a clean tree where siblings are pinned, and a clone where an
      upstream is wanted. */
  ghost predicate Prepared(w: World, run: Run, n: Name) {
    && n in w.repos
    && (run.propagate && w.repos[n].cloned && HasSiblings(w, run.edges, n) ==> Clean(w.repos[n]))
    && (run.setUpstream ==> w.repos[n].cloned)
  }

  lemma PinsIffSiblings(w: World, edges: seq<LockEdge>, n: Name)
    ensures Pins(w.repos, edges, n) != map[] <==> HasSiblings(w, edges, n)
  {
    var pins := Pins(w.repos, edges, n);
    if pins != map[] {
      var a :| a in pins;
      PinComesFromEdge(w.repos, edges, n, a);
    }
    if e :| e in edges && e.consumer == n && e.target in w.repos { PinExists(w.repos, edges, e); }
  }

  /** A visit that fails has a cause: a command fails, or the repository was not ready. */
  lemma VisitHasACause(w: World, run: Run, n: Name)
    requires n in w.repos
    ensures VisitRepo(w, run, n).1.Abort? ==> !Quiet(run.fates(n)) || !Prepared(w, run, n)
    ensures !Prepared(w, run, n) ==> VisitRepo(w, run, n).1.Abort?
  {
    VisitStopsIff(w, run, n);
    PinsIffSiblings(w, run.edges, n);
  }

  lemma PreparedStays(w: World, w': World, run: Run, name: Name, n: Name)
    requires SameButVisited(w, w', name) && n != name
    ensures Prepared(w', run, n) <==> Prepared(w, run, n)
  {
    assert HasSiblings(w', run.edges, n) <==> HasSiblings(w, run.edges, n);
  }

  ghost predicate Explained(w: World, run: Run, names: seq<Name>, o: Outcome) {
    && (o.Aborted? ==> o.done < |names| && (!Quiet(run.fates(names[o.done])) || !Prepared(w, run, names[o.done])))
    && forall j | 0 <= j < |names| && !Prepared(w, run, names[j]) :: o.Aborted? && o.done <= j
  }

  /** A run aborts only where a command fails or a repository was not ready when the run began, and at the
      latest at the first one that was not ready. */
  lemma {:induction false} AbortHasACause(w: World, run: Run, names: seq<Name>)
    requires Elems(names) <= w.repos.Keys && Distinct(names)
    ensures Explained(w, run, names, Walk(w, run, names).1)
    decreases names
  {
    if names != [] {
      assert names == [names[0]] + names[1..];
      assert names[0] in Elems(names) && Elems(names[1..]) <= Elems(names);
      var (w1, v) := VisitRepo(w, run, names[0]);
      VisitTouchesOnlyItsRepo(w, run, names[0]);
      VisitHasACause(w, run, names[0]);
      if v.Done? {
        AbortHasACause(w1, run, names[1..]);
        forall j | 0 < j < |names| ensures Prepared(w1, run, names[j]) <==> Prepared(w, run, names[j]) {
          assert names[j] == names[1..][j - 1];
          PreparedStays(w, w1, run, names[0], names[j]);
        }
      }
    }
  }

  /** When no command fails, a run publishes everything exactly when every repository was ready. */
  lemma QuietRunFinishesIff(w: World, run: Run, names: seq<Name>)
    requires Elems(names) <= w.repos.Keys && Distinct(names)
    requires forall n | n in names :: Quiet(run.fates(n))
    ensures Walk(w, run, names).1.Published? <==> forall n | n in names :: Prepared(w, run, n)
  {
    AbortHasACause(w, run, names);
  }

  /** Each repository that has somewhere to push to, at the head that the run left it with. */
  function Publications(w: World, end: World, setUpstream: bool, names: seq<Name>): seq<Publish>
    requires Elems(names) <= w.repos.Keys && Elems(names) <= end.repos.Keys
  {
    if names == [] then []
    else
      var n := names[0];
      assert n in Elems(names) && Elems(names[1..]) <= Elems(names);
      AsPublished(Publishes(w.repos[n], setUpstream), n, end.repos[n]) + Publications(w, end, setUpstream, names[1..])
  }

  lemma {:induction false} PublicationsAgree(
    a: World, b: World, end: World, setUpstream: bool, names: seq<Name>)
    requires Elems(names) <= a.repos.Keys && Elems(names) <= b.repos.Keys && Elems(names) <= end.repos.Keys
    requires forall n | n in names && n in a.repos && n in b.repos :: b.repos[n] == a.repos[n]
    ensures Publications(a, end, setUpstream, names) == Publications(b, end, setUpstream, names)
    decreases names
  {
    if names != [] {
      assert names[0] in Elems(names) && Elems(names[1..]) <= Elems(names);
      PublicationsAgree(a, b, end, setUpstream, names[1..]);
    }
  }

  /** A finished run publishes each repository that has somewhere to push to exactly once, in the order of the
      walk, at the head it ends with; and nothing else. */
  lemma {:induction false} FinishedRunPublishesEach(w: World, run: Run, names: seq<Name>)
    requires Elems(names) <= w.repos.Keys && Distinct(names) && Walk(w, run, names).1.Published?
    ensures var end := Walk(w, run, names).0;
      Elems(names) <= end.repos.Keys && end.log == w.log + Publications(w, end, run.setUpstream, names)
    decreases names
  {
    if names == [] {
      assert w.log + [] == w.log;
    } else {
      var n, rest := names[0], names[1..];
      assert names == [n] + rest;
      assert n in Elems(names) && Elems(rest) <= Elems(names);
      var w1, end := VisitRepo(w, run, n).0, Walk(w, run, names).0;
      VisitTouchesOnlyItsRepo(w, run, n);
      VisitStopsIff(w, run, n);
      WalkTouchesOnlyItsNames(w1, run, rest);
      FinishedRunPublishesEach(w1, run, rest);
      PublicationsAgree(w, w1, end, run.setUpstream, rest);
      var first := AsPublished(Publishes(w.repos[n], run.setUpstream), n, end.repos[n]);
      ConcatAssociative(w.log, first, Publications(w, end, run.setUpstream, rest));
    }
  }

  // ---------------------------------------------------------------- the program

  datatype PushResult = PushedAll | PushError(failed: Name, completed: seq<Name>)

  /** The workspace the push command works on. */
  class Workspace {
    var repos: map<Name, Repo>
    var nextRev: Rev
    var log: seq<Publish>

    constructor (repos: map<Name, Repo>, nextRev: Rev)
      ensures Abs() == World(repos, nextRev, [])
    {
      this.repos, this.nextRev, this.log := repos, nextRev, [];
    }

    ghost function Abs(): World
      reads this
    {
      World(repos, nextRev, log)
    }

    /** Relock the pinned aliases of one repository and commit the bump; true when a rev moved. */
    method PropagateWorkspaceEdges(name: Name, pins: map<Name, Rev>, fate: Fate) returns (relocked: bool, failed: bool)
      requires name in repos && Clean(repos[name])
      modifies this`repos
      ensures var (r, p) := Propagate(old(repos)[name], pins, fate, nextRev);
        repos == old(repos)[name := r] && relocked == p.Bumped? && failed == p.Failed?
    {
      var r := repos[name];
      UpdateTwice(repos, name, r, r);
      if pins == map[] || r.workLock.None? { return false, false; }
      if fate.beforeUnreadable { return false, true; }
      var before, after := r.workLock.value, Relocked(r, pins, fate.churn);
      if fate.updateFails {
        repos := repos[name := r.(workLock := fate.leftLock)];
        return false, true;
      }
      // nix has written the file.
      repos := repos[name := r.(workLock := Some(after))];
      if !SeesLock(r, Some(after)) && !fate.probeFails { return false, false; }
      if fate.afterUnreadable { return false, true; }
      if Moved(before, after, pins.Keys) == {} {
        failed := RestoreUnchanged(name, fate, r, after);
        return false, failed;
      }
      relocked, failed := CommitBump(name, fate, r, after);
    }

    /** A rev moved: add the lock and commit it. */
    method CommitBump(name: Name, fate: Fate, ghost was: Repo, after: FlakeLock) returns (relocked: bool, failed: bool)
      requires name in repos && repos[name] == was.(workLock := Some(after))
      modifies this`repos
      ensures var (r, p) := CommittedBump(was, after, fate, nextRev);
        repos == old(repos)[name := r] && relocked == p.Bumped? && failed == p.Failed?
    {
      var r := repos[name];
      UpdateTwice(repos, name, r, r);
      if fate.openFails { return false, true; }
      if fate.addFails {
        repos := repos[name := r.(staged := fate.leftStaged)];
        return false, true;
      }
      if fate.commitFails {
        failed := RestoreAfterFailedCommit(name, fate, was, after);
        return false, failed;
      }
      repos := repos[name := r.(head := nextRev, headLock := Some(after))];
      return true, false;
    }

    /** No rev moved: put the committed lock back. */
    method RestoreUnchanged(name: Name, fate: Fate, ghost was: Repo, ghost after: FlakeLock) returns (failed: bool)
      requires name in repos && repos[name] == was.(workLock := Some(after))
      modifies this`repos
      ensures var (r, p) := Restored(was, after, fate);
        repos == old(repos)[name := r] && failed == p.Failed?
    {
      UpdateTwice(repos, name, repos[name], repos[name]);
      if fate.openFails { return true; }
      var r := repos[name];
      if fate.restoreFails {
        repos := repos[name := r.(workLock := fate.leftLock)];
        return true;
      }
      if r.headLock.None? { return false; }
      repos := repos[name := r.(workLock := r.headLock)];
      return false;
    }

    /** A failed commit leaves the bump staged; a hard reset takes it out again, unless that fails too. */
    method RestoreAfterFailedCommit(name: Name, fate: Fate, ghost was: Repo, ghost after: FlakeLock)
      returns (failed: bool)
      requires name in repos && repos[name] == was.(workLock := Some(after))
      modifies this`repos
      ensures failed
      ensures repos == old(repos)[name :=
        if fate.resetFails then was.(workLock := fate.leftLock, staged := fate.leftStaged)
        else was.(workLock := was.headLock, staged := false, otherChanges := false)]
    {
      var r := repos[name];
      if fate.resetFails {
        repos := repos[name := r.(workLock := fate.leftLock, staged := fate.leftStaged)];
      } else {
        repos := repos[name := r.(workLock := r.headLock, staged := false, otherChanges := false)];
      }
      return true;
    }

    method RelockSiblingsBeforePush(name: Name, edges: seq<LockEdge>, fate: Fate) returns (v: Visit)
      requires name in repos
      modifies this`repos, this`nextRev
      ensures (Abs(), v) == Relock(old(Abs()), edges, name, fate)
    {
      var pins := Pins(repos, edges, name);
      if pins == map[] || !repos[name].cloned { return Done; }
      if fate.statusFails || !Clean(repos[name]) { return Abort; }
      var relocked, failed := PropagateWorkspaceEdges(name, pins, fate);
      nextRev := nextRev + 1;
      return if failed then Abort else Done;
    }

    method GitPush(name: Name, fate: Fate) returns (v: Visit)
      requires name in repos
      modifies this`repos, this`log
      ensures (Abs(), v) ==
        if fate.pushFails then (FailedPush(old(Abs()), name, fate), Abort) else (Publication(old(Abs()), name), Done)
    {
      if fate.pushFails && !fate.pushLands { return Abort; }
      var r := repos[name];
      if fate.pushFails {
        repos := repos[name := r.(tip := r.head, tipLock := r.headLock)];
        log := log + [Publish(name, r.head, r.headLock)];
        return Abort;
      }
      repos := repos[name := r.(tip := r.head, tipLock := r.headLock, upstream := true)];
      log := log + [Publish(name, r.head, r.headLock)];
      return Done;
    }

    method PushRepo(name: Name, setUpstream: bool, fate: Fate) returns (v: Visit)
      requires name in repos
      modifies this`repos, this`log
      ensures (Abs(), v) == PushOne(old(Abs()), name, setUpstream, fate)
      ensures v.Abort? <==> PushStops(old(repos)[name], setUpstream, fate)
      ensures v.Done? ==>
        log == old(log) + AsPublished(Publishes(old(repos)[name], setUpstream), name, old(repos)[name])
    {
      PushStopsIff(Abs(), name, setUpstream, fate);
      if repos[name].cloned && repos[name].upstream {
        v := GitPush(name, fate);
        return;
      }
      if !setUpstream { return Done; }
      if !repos[name].cloned || fate.branchFails { return Abort; }
      if !repos[name].remoteResolves { return Done; }
      v := GitPush(name, fate);
    }

    /** The whole command. A lock that cannot be derived, a coordinated set and --no-siblings all
        publish without relocking. */
    method Push(names: seq<Name>, edgeLock: Option<seq<LockEdge>>, noSiblings: bool, inWorkforest: bool,
                setUpstream: bool, fates: Name -> Fate)
      returns (r: PushResult, ghost run: Run, ghost o: Outcome)
      requires Elems(names) <= repos.Keys
      modifies this
      ensures run == Run(if edgeLock.Some? then edgeLock.value else [],
                         !noSiblings && !inWorkforest && edgeLock.Some?, setUpstream, fates)
      ensures (Abs(), o) == Walk(old(Abs()), run, names)
      ensures r.PushedAll? <==> o.Published?
      ensures r.PushError? ==> o.done < |names| && r.failed == names[o.done] && r.completed == names[..o.done]
      ensures Distinct(names) ==> Explained(old(Abs()), run, names, o)
    {
      var propagate := !noSiblings && !inWorkforest && edgeLock.Some?;
      var edges := if edgeLock.Some? then edgeLock.value else [];
      run := Run(edges, propagate, setUpstream, fates);
      ExplainedWhenDistinct(Abs(), run, names);
      var completed: seq<Name> := [];
      assert names[0..] == names;
      for i := 0 to |names|
        invariant completed == names[..i]
        invariant repos.Keys == old(repos.Keys) && Elems(names[i..]) <= repos.Keys
        invariant Resumes(old(Abs()), Abs(), run, names, i)
      {
        var name := names[i];
        NextName(names, i);
        ghost var w := Abs();
        var v := Done;
        if propagate {
          v := RelockSiblingsBeforePush(name, edges, fates(name));
        }
        VisitTouchesOnlyItsRepo(w, run, name);
        if v.Done? {
          v := PushRepo(name, setUpstream, fates(name));
        }
        assert (Abs(), v) == VisitRepo(w, run, name);
        ResumeNext(old(Abs()), w, run, names, i);
        if v.Abort? {
          o := Aborted(i);
          return PushError(name, completed), run, o;
        }
        completed := completed + [name];
      }
      assert names[|names|..] == [];
      o := Published;
      r := PushedAll;
    }
  }

  lemma ExplainedWhenDistinct(w: World, run: Run, names: seq<Name>)
    requires Elems(names) <= w.repos.Keys
    ensures Distinct(names) ==> Explained(w, run, names, Walk(w, run, names).1)
  {
    if Distinct(names) { AbortHasACause(w, run, names); }
  }

  lemma NextName(names: seq<Name>, i: nat)
    requires i < |names|
    ensures names[i..][0] == names[i] && names[i..][1..] == names[i + 1..] && names[..i + 1] == names[..i] + [names[i]]
    ensures names[i] in Elems(names[i..]) && Elems(names[i + 1..]) <= Elems(names[i..])
  {
  }

  /** After i finished visits the rest of the walk decides the whole. */
  ghost predicate Resumes(w0: World, w: World, run: Run, names: seq<Name>, i: nat) {
    && i <= |names| && Elems(names) <= w0.repos.Keys && Elems(names[i..]) <= w.repos.Keys
    && var (rest, o) := Walk(w, run, names[i..]);
       Walk(w0, run, names) == (rest, if o.Published? then Published else Aborted(o.done + i))
  }

  lemma ResumeNext(w0: World, w: World, run: Run, names: seq<Name>, i: nat)
    requires i < |names| && Resumes(w0, w, run, names, i)
    ensures names[i] in w.repos && var (w1, v) := VisitRepo(w, run, names[i]);
      && (v.Abort? ==> Walk(w0, run, names) == (w1, Aborted(i)))
      && (v.Done? ==> Resumes(w0, w1, run, names, i + 1))
  {
    NextName(names, i);
    VisitTouchesOnlyItsRepo(w, run, names[i]);
  }
}
