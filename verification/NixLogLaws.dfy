/** What every run of the activity machine keeps: conservation of activities, one verdict per
    derivation, and indifference to how late a failure message arrives. */
module NixLogLaws {
  import opened Basics
  import opened Names
  import opened NixLog

  datatype Stamped = Stamped(event: Event, at: Stamp)

  ghost function RunFrom(opts: Options, s: State, evs: seq<Stamped>): State
    decreases evs
  {
    if evs == [] then s else RunFrom(opts, Step(opts, s, evs[0].event, evs[0].at), evs[1..])
  }

  lemma {:induction false} RunConcat(opts: Options, s: State, a: seq<Stamped>, b: seq<Stamped>)
    ensures RunFrom(opts, s, a + b) == RunFrom(opts, RunFrom(opts, s, a), b)
    decreases a
  {
    if a == [] {
      assert a + b == b;
    } else {
      assert (a + b)[1..] == a[1..] + b;
      RunConcat(opts, Step(opts, s, a[0].event, a[0].at), a[1..], b);
    }
  }

  // ---------------------------------------------------------------- conservation

  // What a start fixes about its activity; instant activities never started.
  datatype Core = Core(kind: Kind, name: string, path: string, server: string, start: Stamp, instant: bool)

  function CoreOf(a: Activity): Core {
    Core(a.kind, a.name, a.path, a.server, a.start, a.instant)
  }

  ghost function Cores(acts: seq<Activity>): multiset<Core> {
    if acts == [] then multiset{} else multiset{CoreOf(acts[0])} + Cores(acts[1..])
  }

  lemma {:induction false} CoresConcat(a: seq<Activity>, b: seq<Activity>)
    ensures Cores(a + b) == Cores(a) + Cores(b)
  {
    if a == [] {
      assert a + b == b;
    } else {
      assert (a + b)[1..] == a[1..] + b;
      CoresConcat(a[1..], b);
    }
  }

  lemma CoresOne(a: Activity)
    ensures Cores([a]) == multiset{CoreOf(a)}
  {
  }

  ghost function ActiveWith(active: map<Id, Open>, c: Core): set<Id> {
    set id | id in active && CoreOf(active[id].act) == c
  }

  /** The cores of the tracked starts of a run, with multiplicity. */
  ghost function StartedCores(opts: Options, evs: seq<Stamped>): multiset<Core> {
    if evs == [] then multiset{} else StartCore(opts, evs[0]) + StartedCores(opts, evs[1..])
  }

  ghost function StartCore(opts: Options, e: Stamped): multiset<Core> {
    if e.event.Start? && KindOf(e.event.typ).Some? then
      var kind := KindOf(e.event.typ).value;
      multiset{CoreOf(StartedActivity(opts, kind, e.event.path, if kind.Substitute? then e.event.server else "", e.at))}
    else multiset{}
  }

  /** The open activities a run overwrites by starting another one under their id. */
  ghost function LostCores(opts: Options, s: State, evs: seq<Stamped>): multiset<Core>
    decreases evs
  {
    if evs == [] then multiset{}
    else LostCore(s, evs[0]) + LostCores(opts, Step(opts, s, evs[0].event, evs[0].at), evs[1..])
  }

  ghost function LostCore(s: State, e: Stamped): multiset<Core> {
    if e.event.Start? && KindOf(e.event.typ).Some? && e.event.id in s.active
    then multiset{CoreOf(s.active[e.event.id].act)} else multiset{}
  }

  /** Emitted, held and active together are exactly given, for everything that started. */
  ghost predicate Accounts(s: State, given: multiset<Core>) {
    forall c: Core | !c.instant :: Total(s, c) == given[c]
  }

  ghost function Total(s: State, c: Core): nat {
    Cores(s.emitted)[c] + Cores(HeldActs(s.held))[c] + |ActiveWith(s.active, c)|
  }

  lemma EmitCores(emitted: seq<Activity>, a: Activity)
    ensures Cores(emitted + [a]) == Cores(emitted) + multiset{CoreOf(a)}
  {
    CoresConcat(emitted, [a]);
    CoresOne(a);
  }

  lemma ActiveRemove(active: map<Id, Open>, id: Id, c: Core)
    ensures |ActiveWith(active - {id}, c)| ==
      |ActiveWith(active, c)| - (if id in active && CoreOf(active[id].act) == c then 1 else 0)
  {
    if id in active && CoreOf(active[id].act) == c {
      assert ActiveWith(active, c) == ActiveWith(active - {id}, c) + {id};
    } else {
      assert ActiveWith(active, c) == ActiveWith(active - {id}, c);
    }
  }

  lemma ActiveUpdate(active: map<Id, Open>, id: Id, o: Open, c: Core)
    ensures |ActiveWith(active[id := o], c)| ==
      |ActiveWith(active, c)| + (if CoreOf(o.act) == c then 1 else 0)
        - (if id in active && CoreOf(active[id].act) == c then 1 else 0)
  {
    ActiveRemove(active, id, c);
    ActiveRemove(active[id := o], id, c);
    SameMap(active[id := o] - {id}, active - {id});
  }

  lemma HeldAppend(held: seq<Open>, o: Open)
    ensures Cores(HeldActs(held + [o])) == Cores(HeldActs(held)) + multiset{CoreOf(o.act)}
  {
    assert HeldActs(held + [o]) == HeldActs(held) + [o.act];
    CoresConcat(HeldActs(held), [o.act]);
    CoresOne(o.act);
  }

  lemma HeldRemove(held: seq<Open>, i: nat)
    requires i < |held|
    ensures Cores(HeldActs(held)) == Cores(HeldActs(Without(held, i))) + multiset{CoreOf(held[i].act)}
  {
    var a, x, b := HeldActs(held[..i]), held[i].act, HeldActs(held[i + 1..]);
    assert HeldActs(held) == a + [x] + b;
    assert HeldActs(Without(held, i)) == a + b;
    CoresConcat(a + [x], b);
    CoresConcat(a, [x]);
    CoresConcat(a, b);
    CoresOne(x);
  }

  lemma StartConserves(opts: Options, s: State, e: Stamped, c: Core)
    requires e.event.Start?
    ensures |ActiveWith(StartActive(opts, s.active, s.started, e.event, e.at), c)| + LostCore(s, e)[c] ==
            |ActiveWith(s.active, c)| + StartCore(opts, e)[c]
  {
    if KindOf(e.event.typ).Some? {
      ActiveUpdate(s.active, e.event.id, Opened(opts, s.started, e.event, e.at), c);
    }
  }

  lemma StopConserves(opts: Options, s: State, id: Id, at: Stamp, c: Core)
    ensures Cores(s.emitted + StopEmits(opts, s.active, s.failed, id, at))[c]
          + Cores(HeldActs(StopHeld(s.active, s.failed, s.held, id, at)))[c]
          + |ActiveWith(s.active - {id}, c)| == Total(s, c)
  {
    ActiveRemove(s.active, id, c);
    if id in s.active {
      var o := Ended(s.active, id, at);
      assert CoreOf(o.act) == CoreOf(s.active[id].act);
      if Holds(s.active, s.failed, id) {
        HeldAppend(s.held, o);
        assert s.emitted + [] == s.emitted;
      } else {
        var emits := StopEmits(opts, s.active, s.failed, id, at);
        assert |emits| == 1 && CoreOf(emits[0]) == CoreOf(o.act) && emits == [emits[0]];
        EmitCores(s.emitted, emits[0]);
      }
    } else {
      assert s.emitted + [] == s.emitted;
    }
  }

  lemma FailConserves(opts: Options, s: State, drv: string, f: Failure, at: Stamp, c: Core)
    requires !c.instant
    ensures Total(BuildFailed(opts, s, drv, f, at), c) == Total(s, c)
  {
    if drv !in s.failed { FailMoves(opts, s.active, s.held, s.emitted, drv, f, at, c); }
  }

  lemma FailMoves(opts: Options, active: map<Id, Open>, held: seq<Open>, emitted: seq<Activity>,
                  drv: string, f: Failure, at: Stamp, c: Core)
    requires !c.instant
    ensures Cores(emitted + FailEmits(opts, active, held, drv, f, at))[c]
          + Cores(HeldActs(Without(held, FindHeld(held, drv))))[c]
         == Cores(emitted)[c] + Cores(HeldActs(held))[c]
  {
    var i := FindHeld(held, drv);
    if i < |held| {
      HeldRemove(held, i);
      EmitCores(emitted, MarkFailed(held[i].act, f));
    } else if BuildingNow(active, drv) {
      assert emitted + [] == emitted;
    } else {
      EmitCores(emitted, InstantFailure(opts, drv, f, at));
    }
  }

  lemma MsgConserves(opts: Options, s: State, m: Message, at: Stamp, c: Core)
    requires !c.instant
    ensures Total(OnMsg(opts, s, m, at), c) == Total(s, c)
  {
    if Blames(m) { FailConserves(opts, s.(sum := MsgSum(s.sum, m)), m.text.drv, FailureOf(m.text), at, c); }
  }

  lemma ResultConserves(s: State, id: Id, typ: int, fields: Option<(int, int, int, int)>, c: Core)
    ensures Total(OnResult(s, id, typ, fields), c) == Total(s, c)
  {
    if fields.Some? { BytesKeepTotal(s.active, if id in s.copies then s.copies[id] else id, fields.value.0, c); }
  }

  lemma BytesKeepTotal(active: map<Id, Open>, t: Id, n: int, c: Core)
    ensures |ActiveWith(WithBytes(active, t, n), c)| == |ActiveWith(active, c)|
  {
    if OpenSubstitute(active, t) {
      var o := active[t].(act := active[t].act.(bytes := n, hasBytes := true));
      assert CoreOf(o.act) == CoreOf(active[t].act);
      ActiveUpdate(active, t, o, c);
    }
  }

  /** One event moves activities between emitted, held and active; only a tracked start adds one, and
      only a start under an open id loses one. */
  lemma StepConserves(opts: Options, s: State, e: Stamped, c: Core)
    requires !c.instant
    ensures Total(Step(opts, s, e.event, e.at), c) + LostCore(s, e)[c] == Total(s, c) + StartCore(opts, e)[c]
  {
    if e.event.Start? { StartConserves(opts, s, e, c); } else { OthersConserve(opts, s, e, c); }
  }

  lemma OthersConserve(opts: Options, s: State, e: Stamped, c: Core)
    requires !c.instant && !e.event.Start?
    ensures Total(Step(opts, s, e.event, e.at), c) == Total(s, c)
  {
    match e.event
    case Stop(id) => StopConserves(opts, s, id, e.at, c);
    case Msg(m) => MsgConserves(opts, s, m, e.at, c);
    case Result(id, typ, fields) => ResultConserves(s, id, typ, fields, c);
  }

  lemma {:induction false} RunConserves(opts: Options, s: State, evs: seq<Stamped>, c: Core)
    requires !c.instant
    ensures Total(RunFrom(opts, s, evs), c) + LostCores(opts, s, evs)[c] == Total(s, c) + StartedCores(opts, evs)[c]
    decreases evs
  {
    if evs != [] {
      StepConserves(opts, s, evs[0], c);
      RunConserves(opts, Step(opts, s, evs[0].event, evs[0].at), evs[1..], c);
    }
  }

  lemma EmptyTotal(c: Core)
    ensures Total(EMPTY, c) == 0
  {
    assert ActiveWith(EMPTY.active, c) == {};
    assert HeldActs(EMPTY.held) == [];
  }

  /** No start of a tracked type reuses the id of an activity that has not stopped. */
  ghost predicate NoReuse(open: set<Id>, evs: seq<Stamped>)
    decreases evs
  {
    evs == [] || (!Reuses(open, evs[0].event) && NoReuse(OpenAfter(open, evs[0].event), evs[1..]))
  }

  predicate Reuses(open: set<Id>, e: Event) {
    e.Start? && KindOf(e.typ).Some? && e.id in open
  }

  function OpenAfter(open: set<Id>, e: Event): set<Id> {
    if e.Start? && KindOf(e.typ).Some? then open + {e.id} else if e.Stop? then open - {e.id} else open
  }

  ghost predicate Live(acts: map<Id, Open>, held: seq<Open>) {
    (forall id | id in acts :: !acts[id].act.instant) && (forall o | o in held :: !o.act.instant)
  }

  lemma StopShape(opts: Options, s: State, id: Id, at: Stamp)
    requires Live(s.active, s.held)
    ensures Live(s.active - {id}, StopHeld(s.active, s.failed, s.held, id, at))
  {
  }

  lemma WithoutIsPart<T>(s: seq<T>, i: nat)
    ensures forall x | x in Without(s, i) :: x in s
  {
  }

  lemma MsgShape(opts: Options, s: State, m: Message, at: Stamp)
    ensures OnMsg(opts, s, m, at).active == s.active
    ensures forall o | o in OnMsg(opts, s, m, at).held :: o in s.held
  {
    if Blames(m) { WithoutIsPart(s.held, FindHeld(s.held, m.text.drv)); }
  }

  /** The ids open in the machine are those the events left open. */
  lemma OpenIsActive(opts: Options, s: State, e: Stamped)
    ensures var s' := Step(opts, s, e.event, e.at);
      s'.active.Keys == OpenAfter(s.active.Keys, e.event) && (Live(s.active, s.held) ==> Live(s'.active, s'.held))
  {
    match e.event
    case Start(_, _, _, _, _) =>
    case Stop(id) => if Live(s.active, s.held) { StopShape(opts, s, id, e.at); }
    case Msg(m) => MsgShape(opts, s, m, e.at);
    case Result(id, typ, fields) =>
  }

  ghost function OpenIds(open: set<Id>, evs: seq<Stamped>): set<Id>
    decreases evs
  {
    if evs == [] then open else OpenIds(OpenAfter(open, evs[0].event), evs[1..])
  }

  lemma {:induction false} RunOpenIds(opts: Options, s: State, evs: seq<Stamped>)
    ensures RunFrom(opts, s, evs).active.Keys == OpenIds(s.active.Keys, evs)
    decreases evs
  {
    if evs != [] {
      OpenIsActive(opts, s, evs[0]);
      RunOpenIds(opts, Step(opts, s, evs[0].event, evs[0].at), evs[1..]);
    }
  }

  lemma {:induction false} LostIffReuse(opts: Options, s: State, evs: seq<Stamped>)
    ensures LostCores(opts, s, evs) == multiset{} <==> NoReuse(s.active.Keys, evs)
    decreases evs
  {
    if evs != [] {
      OpenIsActive(opts, s, evs[0]);
      LostIffReuse(opts, Step(opts, s, evs[0].event, evs[0].at), evs[1..]);
      if Reuses(s.active.Keys, evs[0].event) {
        assert CoreOf(s.active[evs[0].event.id].act) in LostCore(s, evs[0]);
        assert CoreOf(s.active[evs[0].event.id].act) in LostCores(opts, s, evs);
      }
    }
  }

  lemma {:induction false} LostNeverInstant(opts: Options, s: State, evs: seq<Stamped>)
    requires Live(s.active, s.held)
    ensures forall c | c in LostCores(opts, s, evs) :: !c.instant
    decreases evs
  {
    if evs != [] {
      OpenIsActive(opts, s, evs[0]);
      LostNeverInstant(opts, Step(opts, s, evs[0].event, evs[0].at), evs[1..]);
      assert forall c | c in LostCore(s, evs[0]) :: !c.instant;
    }
  }

  lemma TotalsOfRun(opts: Options, evs: seq<Stamped>, c: Core)
    requires !c.instant
    ensures Total(RunFrom(opts, EMPTY, evs), c) + LostCores(opts, EMPTY, evs)[c] == StartedCores(opts, evs)[c]
  {
    RunConserves(opts, EMPTY, evs, c);
    EmptyTotal(c);
  }

  /** Conservation: at every point of a run the tracked starts are the disjoint union of the emitted
      activities that started, the held and the active ones, exactly when no open id is reused. */
  lemma Conservation(opts: Options, evs: seq<Stamped>)
    ensures Accounts(RunFrom(opts, EMPTY, evs), StartedCores(opts, evs)) <==> NoReuse({}, evs)
  {
    var s, lost, given := RunFrom(opts, EMPTY, evs), LostCores(opts, EMPTY, evs), StartedCores(opts, evs);
    LostIffReuse(opts, EMPTY, evs);
    LostNeverInstant(opts, EMPTY, evs);
    assert EMPTY.active.Keys == {};
    forall c: Core | !c.instant ensures Total(s, c) + lost[c] == given[c] { TotalsOfRun(opts, evs, c); }
    if Accounts(s, given) {
      forall c: Core ensures lost[c] == 0 {
        if !c.instant { assert Total(s, c) + lost[c] == given[c]; }
      }
      assert lost == multiset{};
    }
  }

  lemma {:induction false} AbortedCores(active: map<Id, Open>, ids: seq<Id>, end: Stamp, c: Core)
    requires Distinct(ids) && Elems(ids) == active.Keys && forall id | id in ids :: id in active
    ensures Cores(AbortedActs(active, ids, end))[c] == |ActiveWith(active, c)|
    decreases |ids|
  {
    if ids == [] {
      assert AbortedActs(active, ids, end) == [];
      assert ActiveWith(active, c) == {};
    } else {
      var id, rest := ids[0], ids[1..];
      assert ids == [id] + rest;
      assert id in Elems(ids) && id !in Elems(rest);
      assert Elems(ids) == {id} + Elems(rest);
      var less := active - {id};
      assert less.Keys == Elems(rest);
      assert AbortedActs(active, ids, end)[1..] == AbortedActs(less, rest, end);
      AbortedCores(less, rest, end, c);
      ActiveRemove(active, id, c);
    }
  }

  /** The drain emits what was held or active once each, and leaves neither. */
  lemma FinishConserves(s: State, ids: seq<Id>, end: Stamp, c: Core)
    requires DrainOrder(s.active, ids)
    ensures var f := Finish(s, ids, end);
      Total(f, c) == Total(s, c) && Cores(f.emitted)[c] == Total(f, c) && f.held == [] && f.active == map[]
  {
    assert forall id | id in ids :: id in Elems(ids);
    var h, a := HeldActs(s.held), AbortedActs(s.active, ids, end);
    CoresConcat(h, a);
    CoresConcat(s.emitted, h + a);
    AbortedCores(s.active, ids, end, c);
    var f := Finish(s, ids, end);
    assert HeldActs(f.held) == [];
    assert ActiveWith(f.active, c) == {};
  }

  /** Nothing is held or active, and apart from instant activities exactly the given ones were emitted. */
  ghost predicate AllEmitted(f: State, given: multiset<Core>) {
    f.held == [] && f.active == map[] && forall c: Core | !c.instant :: Cores(f.emitted)[c] == given[c]
  }

  /** When the starts given so far are accounted for, as they are in a run that reuses no open id, then
      after the end of the run each of them has been emitted exactly once. */
  lemma EveryStartEmittedOnce(s: State, given: multiset<Core>, ids: seq<Id>, end: Stamp)
    requires Accounts(s, given) && DrainOrder(s.active, ids)
    ensures AllEmitted(Finish(s, ids, end), given)
  {
    forall c: Core | !c.instant ensures Cores(Finish(s, ids, end).emitted)[c] == given[c] {
      FinishConserves(s, ids, end, c);
    }
    FinishConserves(s, ids, end, CoreOf(InstantFailure(Options(0, n => n), "", Failure("", BuildError, false), 0)));
  }

  // ---------------------------------------------------------------- one verdict per derivation

  predicate IsBuildOf(a: Activity, d: string) {
    a.kind.Build? && a.path == d
  }

  ghost function BuildsOf(acts: seq<Activity>, d: string): seq<Activity> {
    if acts == [] then [] else (if IsBuildOf(acts[0], d) then [acts[0]] else []) + BuildsOf(acts[1..], d)
  }

  lemma {:induction false} BuildsConcat(a: seq<Activity>, b: seq<Activity>, d: string)
    ensures BuildsOf(a + b, d) == BuildsOf(a, d) + BuildsOf(b, d)
  {
    if a == [] {
      assert a + b == b;
    } else {
      assert (a + b)[0] == a[0] && (a + b)[1..] == a[1..] + b;
      BuildsConcat(a[1..], b, d);
      ConcatAssociative(if IsBuildOf(a[0], d) then [a[0]] else [], BuildsOf(a[1..], d), BuildsOf(b, d));
    }
  }

  lemma BuildsOne(a: Activity, d: string)
    ensures BuildsOf([a], d) == if IsBuildOf(a, d) then [a] else []
  {
  }

  ghost function ActiveBuilds(active: map<Id, Open>, d: string): set<Id> {
    set id | id in active && IsBuildOf(active[id].act, d)
  }

  ghost function HeldBuilds(s: State, d: string): seq<Activity> {
    BuildsOf(HeldActs(s.held), d)
  }

  /** What the events say about one derivation: the id its build started under, whether that id has
      stopped since, and whether a failure message has named it. */
  datatype Story = Story(id: Option<Id>, stopped: bool, named: bool)

  const UNTOLD := Story(None, false, false)

  predicate StartsBuild(e: Event, d: string) {
    e.Start? && e.typ == TYPE_BUILD && e.path == d
  }

  predicate NamesDerivation(e: Event, d: string) {
    e.Msg? && Blames(e.message) && e.message.text.drv == d
  }

  function Tell(st: Story, e: Event, d: string): Story {
    if StartsBuild(e, d) then st.(id := Some(e.id))
    else if e.Stop? && st.id == Some(e.id) then st.(stopped := true)
    else if NamesDerivation(e, d) then st.(named := true)
    else st
  }

  ghost function StoryOf(st: Story, evs: seq<Stamped>, d: string): Story
    decreases evs
  {
    if evs == [] then st else StoryOf(Tell(st, evs[0].event, d), evs[1..], d)
  }

  /** The derivation starts at most once, and not after a message has named it. */
  ghost predicate StartsOnce(st: Story, evs: seq<Stamped>, d: string)
    decreases evs
  {
    evs == [] ||
    ((StartsBuild(evs[0].event, d) ==> st.id.None? && !st.named) && StartsOnce(Tell(st, evs[0].event, d), evs[1..], d))
  }

  /** Held activities are unfailed builds; open ones have not failed. */
  ghost predicate Sound(s: State) {
    && (forall o | o in s.held :: o.act.kind.Build? && !o.act.failed)
    && (forall id | id in s.active :: !s.active[id].act.failed)
  }

  ghost predicate Blamed(s: State, d: string, acts: seq<Activity>) {
    && |acts| == 1 && acts[0].failed && d in s.failed
    && acts[0].errorType == s.failed[d].errorType && acts[0].reason == s.failed[d].reason
  }

  ghost predicate Follows(s: State, st: Story, d: string) {
    && (d in s.failed <==> st.named)
    && ActiveBuilds(s.active, d) == (if st.id.Some? && !st.stopped then {st.id.value} else {})
    && |HeldBuilds(s, d)| == (if st.id.Some? && st.stopped && !st.named then 1 else 0)
    && (if st.named && (st.id.None? || st.stopped) then Blamed(s, d, BuildsOf(s.emitted, d))
        else BuildsOf(s.emitted, d) == [])
    && (st.stopped ==> st.id.Some?)
  }

  lemma {:induction false} FindHeldIff(held: seq<Open>, d: string)
    requires forall o | o in held :: o.act.kind.Build?
    ensures FindHeld(held, d) < |held| <==> BuildsOf(HeldActs(held), d) != []
  {
    if held != [] {
      assert HeldActs(held)[1..] == HeldActs(held[1..]);
      FindHeldIff(held[1..], d);
      assert held[0] in held;
    }
  }

  lemma HeldBuildsAppend(held: seq<Open>, o: Open, d: string)
    ensures BuildsOf(HeldActs(held + [o]), d) ==
      BuildsOf(HeldActs(held), d) + if IsBuildOf(o.act, d) then [o.act] else []
  {
    assert HeldActs(held + [o]) == HeldActs(held) + [o.act];
    BuildsConcat(HeldActs(held), [o.act], d);
    BuildsOne(o.act, d);
  }

  lemma HeldBuildsRemove(held: seq<Open>, i: nat, d: string)
    requires i < |held|
    ensures |BuildsOf(HeldActs(Without(held, i)), d)| ==
      |BuildsOf(HeldActs(held), d)| - if IsBuildOf(held[i].act, d) then 1 else 0
  {
    var a, x, b := HeldActs(held[..i]), held[i].act, HeldActs(held[i + 1..]);
    assert HeldActs(held) == a + [x] + b;
    assert HeldActs(Without(held, i)) == a + b;
    BuildsConcat(a + [x], b, d);
    BuildsConcat(a, [x], d);
    BuildsConcat(a, b, d);
    BuildsOne(x, d);
  }

  lemma EmitBuilds(emitted: seq<Activity>, a: Activity, d: string)
    ensures BuildsOf(emitted + [a], d) == BuildsOf(emitted, d) + if IsBuildOf(a, d) then [a] else []
  {
    BuildsConcat(emitted, [a], d);
    BuildsOne(a, d);
  }

  lemma StartFollows(opts: Options, s: State, st: Story, e: Event, at: Stamp, d: string)
    requires e.Start? && Sound(s) && Follows(s, st, d) && !Reuses(s.active.Keys, e)
    requires StartsBuild(e, d) ==> st.id.None? && !st.named
    ensures var s' := OnStart(opts, s, e, at); Sound(s') && Follows(s', Tell(st, e, d), d)
  {
    var s' := OnStart(opts, s, e, at);
    assert ActiveBuilds(s'.active, d) == ActiveBuilds(s.active, d) + if StartsBuild(e, d) then {e.id} else {};
  }

  lemma ResultFollows(s: State, st: Story, e: Event, d: string)
    requires e.Result? && Sound(s) && Follows(s, st, d)
    ensures var s' := OnResult(s, e.id, e.typ, e.fields); Sound(s') && Follows(s', Tell(st, e, d), d)
  {
    var s' := OnResult(s, e.id, e.typ, e.fields);
    assert ActiveBuilds(s'.active, d) == ActiveBuilds(s.active, d);
  }

  lemma StopHeldFollows(opts: Options, s: State, st: Story, id: Id, at: Stamp, d: string)
    requires Sound(s) && Follows(s, st, d) && id in s.active && Holds(s.active, s.failed, id)
    ensures var s' := OnStop(opts, s, id, at); Sound(s') && Follows(s', Tell(st, Stop(id), d), d)
  {
    var s' := OnStop(opts, s, id, at);
    assert ActiveBuilds(s'.active, d) == ActiveBuilds(s.active, d) - {id};
    assert id in ActiveBuilds(s.active, d) <==> IsBuildOf(s.active[id].act, d);
    HeldBuildsAppend(s.held, Ended(s.active, id, at), d);
    assert s'.emitted == s.emitted;
  }

  lemma StopEmittedFollows(opts: Options, s: State, st: Story, id: Id, at: Stamp, d: string)
    requires Sound(s) && Follows(s, st, d) && id in s.active && !Holds(s.active, s.failed, id)
    ensures var s' := OnStop(opts, s, id, at); Sound(s') && Follows(s', Tell(st, Stop(id), d), d)
  {
    var s' := OnStop(opts, s, id, at);
    assert ActiveBuilds(s'.active, d) == ActiveBuilds(s.active, d) - {id};
    assert id in ActiveBuilds(s.active, d) <==> IsBuildOf(s.active[id].act, d);
    var emits := StopEmits(opts, s.active, s.failed, id, at);
    assert emits == [emits[0]];
    EmitBuilds(s.emitted, emits[0], d);
  }

  lemma StopFollows(opts: Options, s: State, st: Story, id: Id, at: Stamp, d: string)
    requires Sound(s) && Follows(s, st, d)
    ensures var s' := OnStop(opts, s, id, at); Sound(s') && Follows(s', Tell(st, Stop(id), d), d)
  {
    if id !in s.active {
      var s' := OnStop(opts, s, id, at);
      assert ActiveBuilds(s'.active, d) == ActiveBuilds(s.active, d) - {id};
      assert s'.emitted == s.emitted;
    } else if Holds(s.active, s.failed, id) {
      StopHeldFollows(opts, s, st, id, at, d);
    } else {
      StopEmittedFollows(opts, s, st, id, at, d);
    }
  }

  lemma BuildingIff(active: map<Id, Open>, d: string)
    ensures BuildingNow(active, d) <==> ActiveBuilds(active, d) != {}
  {
    if BuildingNow(active, d) {
      var id :| id in active && active[id].act.kind.Build? && active[id].act.path == d;
      assert id in ActiveBuilds(active, d);
    }
    if ActiveBuilds(active, d) != {} {
      var id :| id in ActiveBuilds(active, d);
    }
  }

  lemma FailFollowsNew(opts: Options, s: State, st: Story, drv: string, f: Failure, at: Stamp)
    requires Sound(s) && Follows(s, st, drv) && drv !in s.failed
    ensures var s' := BuildFailed(opts, s, drv, f, at); Sound(s') && Follows(s', st.(named := true), drv)
  {
    FindHeldIff(s.held, drv);
    BuildingIff(s.active, drv);
    var i := FindHeld(s.held, drv);
    WithoutIsPart(s.held, i);
    if i < |s.held| {
      assert s.held[i] in s.held;
      HeldBuildsRemove(s.held, i, drv);
      EmitBuilds(s.emitted, MarkFailed(s.held[i].act, f), drv);
    } else if BuildingNow(s.active, drv) {
      assert s.emitted + [] == s.emitted;
    } else {
      EmitBuilds(s.emitted, InstantFailure(opts, drv, f, at), drv);
    }
  }

  lemma FailFollowsOther(opts: Options, s: State, st: Story, drv: string, f: Failure, at: Stamp, d: string)
    requires Sound(s) && Follows(s, st, d) && (drv != d || drv in s.failed)
    ensures var s' := BuildFailed(opts, s, drv, f, at); Sound(s') && Follows(s', st, d)
  {
    if drv !in s.failed {
      WithoutIsPart(s.held, FindHeld(s.held, drv));
      FailOfOther(opts, s.active, s.held, s.emitted, drv, f, at, d);
    }
  }

  lemma FailOfOther(opts: Options, active: map<Id, Open>, held: seq<Open>, emitted: seq<Activity>,
                    drv: string, f: Failure, at: Stamp, d: string)
    requires drv != d
    ensures BuildsOf(emitted + FailEmits(opts, active, held, drv, f, at), d) == BuildsOf(emitted, d)
    ensures |BuildsOf(HeldActs(Without(held, FindHeld(held, drv))), d)| == |BuildsOf(HeldActs(held), d)|
  {
    var i := FindHeld(held, drv);
    if i < |held| {
      HeldBuildsRemove(held, i, d);
      EmitBuilds(emitted, MarkFailed(held[i].act, f), d);
    } else if BuildingNow(active, drv) {
      assert emitted + [] == emitted;
    } else {
      EmitBuilds(emitted, InstantFailure(opts, drv, f, at), d);
    }
  }

  lemma StepFollows(opts: Options, s: State, st: Story, e: Stamped, d: string)
    requires Sound(s) && Follows(s, st, d) && !Reuses(s.active.Keys, e.event)
    requires StartsBuild(e.event, d) ==> st.id.None? && !st.named
    ensures var s' := Step(opts, s, e.event, e.at); Sound(s') && Follows(s', Tell(st, e.event, d), d)
  {
    match e.event
    case Start(_, _, _, _, _) => StartFollows(opts, s, st, e.event, e.at, d);
    case Stop(id) => StopFollows(opts, s, st, id, e.at, d);
    case Msg(m) =>
      var s1 := s.(sum := MsgSum(s.sum, m));
      assert Sound(s1) && Follows(s1, st, d);
      if Blames(m) {
        if m.text.drv == d && d !in s.failed {
          FailFollowsNew(opts, s1, st, d, FailureOf(m.text), e.at);
        } else {
          FailFollowsOther(opts, s1, st, m.text.drv, FailureOf(m.text), e.at, d);
        }
      }
    case Result(_, _, _) => ResultFollows(s, st, e.event, d);
  }

  lemma {:induction false} RunFollows(opts: Options, s: State, st: Story, evs: seq<Stamped>, d: string)
    requires Sound(s) && Follows(s, st, d) && NoReuse(s.active.Keys, evs) && StartsOnce(st, evs, d)
    ensures Sound(RunFrom(opts, s, evs)) && Follows(RunFrom(opts, s, evs), StoryOf(st, evs, d), d)
    decreases evs
  {
    if evs != [] {
      StepFollows(opts, s, st, evs[0], d);
      OpenIsActive(opts, s, evs[0]);
      RunFollows(opts, Step(opts, s, evs[0].event, evs[0].at), Tell(st, evs[0].event, d), evs[1..], d);
    }
  }

  lemma {:induction false} AbortedBuilds(active: map<Id, Open>, ids: seq<Id>, end: Stamp, d: string)
    requires Distinct(ids) && Elems(ids) == active.Keys && forall id | id in ids :: id in active
    ensures |BuildsOf(AbortedActs(active, ids, end), d)| == |ActiveBuilds(active, d)|
    decreases |ids|
  {
    if ids == [] {
      assert AbortedActs(active, ids, end) == [];
      assert ActiveBuilds(active, d) == {};
    } else {
      var id, rest := ids[0], ids[1..];
      assert ids == [id] + rest;
      assert Elems(ids) == {id} + Elems(rest) && id !in Elems(rest) && id in Elems(ids);
      var less := active - {id};
      assert AbortedActs(active, ids, end)[1..] == AbortedActs(less, rest, end);
      AbortedBuilds(less, rest, end, d);
      ActiveBuildsRemove(active, id, d);
      var first := AbortedAt(active[id].act, end);
      assert AbortedActs(active, ids, end)[0] == first && (IsBuildOf(first, d) <==> IsBuildOf(active[id].act, d));
    }
  }

  lemma ActiveBuildsRemove(active: map<Id, Open>, id: Id, d: string)
    requires id in active
    ensures |ActiveBuilds(active, d)| ==
      |ActiveBuilds(active - {id}, d)| + if IsBuildOf(active[id].act, d) then 1 else 0
  {
    if IsBuildOf(active[id].act, d) {
      assert ActiveBuilds(active, d) == ActiveBuilds(active - {id}, d) + {id};
    } else {
      assert ActiveBuilds(active, d) == ActiveBuilds(active - {id}, d);
    }
  }

  lemma {:induction false} BuildsAreAmong(acts: seq<Activity>, d: string, a: Activity)
    requires a in BuildsOf(acts, d)
    ensures a in acts
  {
    if !(IsBuildOf(acts[0], d) && a == acts[0]) {
      BuildsAreAmong(acts[1..], d, a);
    }
  }

  /** The verdict on a derivation after the end of the run: one build activity if it started or a
      message named it, none otherwise; and it is successful exactly when the build stopped and no
      message names it. */
  lemma OneVerdictPerDerivation(opts: Options, evs: seq<Stamped>, ids: seq<Id>, end: Stamp, d: string)
    requires NoReuse({}, evs) && StartsOnce(UNTOLD, evs, d) && DrainOrder(RunFrom(opts, EMPTY, evs).active, ids)
    ensures var st := StoryOf(UNTOLD, evs, d);
      var builds := BuildsOf(Finish(RunFrom(opts, EMPTY, evs), ids, end).emitted, d);
      && |builds| == (if st.named || st.id.Some? then 1 else 0)
      && (|builds| == 1 ==> (builds[0].failed <==> st.named || !st.stopped))
  {
    assert EMPTY.active.Keys == {} && ActiveBuilds(EMPTY.active, d) == {} && HeldActs(EMPTY.held) == [];
    RunFollows(opts, EMPTY, UNTOLD, evs, d);
    FinishVerdict(RunFrom(opts, EMPTY, evs), StoryOf(UNTOLD, evs, d), ids, end, d);
  }

  lemma FinishVerdict(s: State, st: Story, ids: seq<Id>, end: Stamp, d: string)
    requires Sound(s) && Follows(s, st, d) && DrainOrder(s.active, ids)
    ensures var builds := BuildsOf(Finish(s, ids, end).emitted, d);
      && |builds| == (if st.named || st.id.Some? then 1 else 0)
      && (|builds| == 1 ==> (builds[0].failed <==> st.named || !st.stopped))
  {
    assert forall id | id in ids :: id in Elems(ids);
    var h, a := HeldActs(s.held), AbortedActs(s.active, ids, end);
    BuildsConcat(h, a, d);
    BuildsConcat(s.emitted, h + a, d);
    AbortedBuilds(s.active, ids, end, d);
    if BuildsOf(a, d) != [] { BuildsAreAmong(a, d, BuildsOf(a, d)[0]); }
    if HeldBuilds(s, d) != [] {
      BuildsAreAmong(h, d, HeldBuilds(s, d)[0]);
      var i :| 0 <= i < |h| && h[i] == HeldBuilds(s, d)[0];
      assert s.held[i] in s.held;
    }
  }
}
