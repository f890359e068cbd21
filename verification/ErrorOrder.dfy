/** A failure message among other messages: what it names is decided the same way wherever it stands. */
module ErrorOrder {
  import opened Basics
  import opened NixLog
  import opened NixLogLaws
  import opened LateErrors

  /** Equal but for the first error and the list of failed derivations, which go by order. */
  predicate AlikeSum(a: Summary, b: Summary) {
    a.(failedDrvs := b.failedDrvs, firstError := b.firstError) == b
  }

  function Blurred(s: State, t: State): State {
    State(s.active, s.held, s.failed, s.aggs, s.copies, s.started,
          s.sum.(failedDrvs := t.sum.failedDrvs, firstError := t.sum.firstError), t.emitted)
  }

  /** The same state, up to those and to the order in which activities were emitted. */
  ghost predicate Alike(s: State, t: State) {
    Blurred(s, t) == t && multiset(s.emitted) == multiset(t.emitted)
  }

  lemma EquivalentIsAlike(s: State, t: State)
    requires Equivalent(s, t)
    ensures Alike(s, t)
  {
  }

  lemma AlikeTransitive(s: State, t: State, u: State)
    requires Alike(s, t) && Alike(t, u)
    ensures Alike(s, u)
  {
  }

  // ---------------------------------------------------------------- alike states stay alike

  lemma MsgSumAlike(a: Summary, b: Summary, m: Message)
    requires AlikeSum(a, b)
    ensures AlikeSum(MsgSum(a, m), MsgSum(b, m))
  {
  }

  lemma FailAlike(opts: Options, s: State, t: State, d: string, f: Failure, at: Stamp)
    requires Alike(s, t)
    ensures Alike(BuildFailed(opts, s, d, f, at), BuildFailed(opts, t, d, f, at))
  {
  }

  lemma MessageAlike(opts: Options, s: State, t: State, m: Message, at: Stamp)
    requires Alike(s, t)
    ensures Alike(OnMsg(opts, s, m, at), OnMsg(opts, t, m, at))
  {
    MsgSumAlike(s.sum, t.sum, m);
    var s1, t1 := s.(sum := MsgSum(s.sum, m)), t.(sum := MsgSum(t.sum, m));
    assert Alike(s1, t1);
    if Blames(m) { FailAlike(opts, s1, t1, m.text.drv, FailureOf(m.text), at); }
  }

  lemma StopAlike(opts: Options, s: State, t: State, id: Id, at: Stamp)
    requires Alike(s, t)
    ensures Alike(OnStop(opts, s, id, at), OnStop(opts, t, id, at))
  {
  }

  lemma StartAlike(opts: Options, s: State, t: State, e: Event, at: Stamp)
    requires e.Start? && Alike(s, t)
    ensures Alike(OnStart(opts, s, e, at), OnStart(opts, t, e, at))
  {
  }

  lemma ResultAlike(s: State, t: State, id: Id, typ: int, fields: Option<(int, int, int, int)>)
    requires Alike(s, t)
    ensures Alike(OnResult(s, id, typ, fields), OnResult(t, id, typ, fields))
  {
  }

  lemma StepAlike(opts: Options, s: State, t: State, e: Event, at: Stamp)
    requires Alike(s, t)
    ensures Alike(Step(opts, s, e, at), Step(opts, t, e, at))
  {
    match e
    case Start(_, _, _, _, _) => StartAlike(opts, s, t, e, at);
    case Stop(id) => StopAlike(opts, s, t, id, at);
    case Msg(m) => MessageAlike(opts, s, t, m, at);
    case Result(id, typ, fields) => ResultAlike(s, t, id, typ, fields);
  }

  lemma {:induction false} RunAlike(opts: Options, s: State, t: State, evs: seq<Stamped>)
    requires Alike(s, t)
    ensures Alike(RunFrom(opts, s, evs), RunFrom(opts, t, evs))
    decreases evs
  {
    if evs != [] {
      var e := evs[0];
      StepAlike(opts, s, t, e.event, e.at);
      RunAlike(opts, Step(opts, s, e.event, e.at), Step(opts, t, e.event, e.at), evs[1..]);
    }
  }

  lemma FinishAlike(s: State, t: State, ids: seq<Id>, end: Stamp)
    requires Alike(s, t) && DrainOrder(s.active, ids)
    ensures DrainOrder(t.active, ids) && Alike(Finish(s, ids, end), Finish(t, ids, end))
  {
  }

  // ---------------------------------------------------------------- what messages add

  // What a message adds to the summary, the first error and the failed derivations aside.
  datatype Share = Share(db: nat, eval: nat, builds: nat, fetches: nat, kinds: set<ErrorType>)

  const NOTHING := Share(0, 0, 0, 0, {})

  function Plus(sum: Summary, x: Share): Summary {
    sum.(dbBusy := sum.dbBusy + x.db, evalCacheBusy := sum.evalCacheBusy + x.eval,
         planBuild := sum.planBuild + x.builds, planFetch := sum.planFetch + x.fetches, kinds := sum.kinds + x.kinds)
  }

  function ShareOf(m: Message): Share {
    match m
    case DatabaseBusy => NOTHING.(db := 1)
    case EvalCacheBusy => NOTHING.(eval := 1)
    case BusyElsewhere => NOTHING
    case PlanBuilds(n) => NOTHING.(builds := n)
    case PlanFetches(n) => NOTHING.(fetches := n)
    case OtherMessage => NOTHING
    case LevelZero(text, isError, _) =>
      NOTHING.(kinds :=
        if NamesDrv(text) || !isError then {}
        else if text.Interrupted? then {SignalError}
        else if text.MentionsDerivation? then {OtherError}
        else {EvalError})
  }

  lemma MessageAdds(sum: Summary, m: Message)
    ensures AlikeSum(MsgSum(sum, m), Plus(sum, ShareOf(m)))
  {
  }

  lemma BlameAdds(sum: Summary, n: string, f: Failure)
    ensures AlikeSum(BlameSum(sum, n, f), Plus(sum, NOTHING.(kinds := {f.errorType})))
  {
  }

  lemma SharesCommute(sum: Summary, x: Share, y: Share)
    ensures Plus(Plus(sum, x), y) == Plus(Plus(sum, y), x)
  {
    assert sum.kinds + x.kinds + y.kinds == sum.kinds + y.kinds + x.kinds;
  }

  lemma PlusAlike(a: Summary, b: Summary, x: Share)
    requires AlikeSum(a, b)
    ensures AlikeSum(Plus(a, x), Plus(b, x))
  {
  }

  /** Two additions in either order. */
  lemma AdditionsCommute(sum: Summary, x: Share, y: Share, a: Summary, ab: Summary, b: Summary, ba: Summary)
    requires AlikeSum(a, Plus(sum, x)) && AlikeSum(ab, Plus(a, y))
    requires AlikeSum(b, Plus(sum, y)) && AlikeSum(ba, Plus(b, x))
    ensures AlikeSum(ab, ba)
  {
    PlusAlike(a, Plus(sum, x), y);
    PlusAlike(b, Plus(sum, y), x);
    SharesCommute(sum, x, y);
    AlikeSumTransitive(ab, Plus(a, y), Plus(Plus(sum, x), y));
    AlikeSumTransitive(ba, Plus(b, x), Plus(Plus(sum, y), x));
    AlikeSumTransitive(ab, Plus(Plus(sum, x), y), ba);
  }

  lemma AlikeSumTransitive(a: Summary, b: Summary, c: Summary)
    requires AlikeSum(a, b) && (AlikeSum(b, c) || AlikeSum(c, b))
    ensures AlikeSum(a, c)
  {
  }

  lemma MsgSumsCommute(sum: Summary, m: Message, m': Message)
    ensures AlikeSum(MsgSum(MsgSum(sum, m), m'), MsgSum(MsgSum(sum, m'), m))
  {
    var a, b := MsgSum(sum, m), MsgSum(sum, m');
    MessageAdds(sum, m);
    MessageAdds(a, m');
    MessageAdds(sum, m');
    MessageAdds(b, m);
    AdditionsCommute(sum, ShareOf(m), ShareOf(m'), a, MsgSum(a, m'), b, MsgSum(b, m));
  }

  lemma BlameAndMsgCommute(sum: Summary, n: string, f: Failure, m: Message)
    ensures AlikeSum(MsgSum(BlameSum(sum, n, f), m), BlameSum(MsgSum(sum, m), n, f))
  {
    var a, b := BlameSum(sum, n, f), MsgSum(sum, m);
    BlameAdds(sum, n, f);
    MessageAdds(a, m);
    MessageAdds(sum, m);
    BlameAdds(b, n, f);
    AdditionsCommute(sum, NOTHING.(kinds := {f.errorType}), ShareOf(m), a, MsgSum(a, m), b, BlameSum(b, n, f));
  }

  lemma BlamesCommute(sum: Summary, n: string, f: Failure, n': string, g: Failure)
    ensures AlikeSum(BlameSum(BlameSum(sum, n, f), n', g), BlameSum(BlameSum(sum, n', g), n, f))
  {
    var a, b := BlameSum(sum, n, f), BlameSum(sum, n', g);
    var x, y := NOTHING.(kinds := {f.errorType}), NOTHING.(kinds := {g.errorType});
    BlameAdds(sum, n, f);
    BlameAdds(a, n', g);
    BlameAdds(sum, n', g);
    BlameAdds(b, n, f);
    AdditionsCommute(sum, x, y, a, BlameSum(a, n', g), b, BlameSum(b, n, f));
  }

  // ---------------------------------------------------------------- two derivations fail

  /** The held builds without the first one of d. */
  function Release(held: seq<Open>, d: string): seq<Open> {
    Without(held, FindHeld(held, d))
  }

  function FirstOf(held: seq<Open>, d: string): Option<Open> {
    var i := FindHeld(held, d);
    if i < |held| then Some(held[i]) else None
  }

  lemma WithoutCons<T>(s: seq<T>, i: nat)
    requires s != []
    ensures Without(s, 0) == s[1..]
    ensures i > 0 ==> Without(s, i) == [s[0]] + Without(s[1..], i - 1)
  {
    if 0 < i < |s| {
      assert s[..i] == [s[0]] + s[1..][..i - 1] && s[i + 1..] == s[1..][i..];
    } else {
      assert s == [s[0]] + s[1..];
    }
  }

  lemma ReleaseCons(held: seq<Open>, d: string)
    requires held != []
    ensures Release(held, d) == if held[0].act.path == d then held[1..] else [held[0]] + Release(held[1..], d)
    ensures FirstOf(held, d) == if held[0].act.path == d then Some(held[0]) else FirstOf(held[1..], d)
  {
    WithoutCons(held, FindHeld(held, d));
  }

  lemma {:induction false} ReleasesCommute(held: seq<Open>, d: string, e: string)
    requires d != e
    ensures Release(Release(held, d), e) == Release(Release(held, e), d)
    ensures FirstOf(Release(held, d), e) == FirstOf(held, e)
  {
    if held != [] {
      var h, rest := held[0], held[1..];
      ReleaseCons(held, d);
      ReleaseCons(held, e);
      ReleasesCommute(rest, d, e);
      if h.act.path != d {
        ReleaseCons([h] + Release(rest, d), e);
        assert ([h] + Release(rest, d))[1..] == Release(rest, d);
      }
      if h.act.path != e {
        ReleaseCons([h] + Release(rest, e), d);
        assert ([h] + Release(rest, e))[1..] == Release(rest, e);
      }
    }
  }

  lemma EmitsByFirst(opts: Options, active: map<Id, Open>, held: seq<Open>, d: string, f: Failure, at: Stamp)
    ensures FailEmits(opts, active, held, d, f, at) ==
      match FirstOf(held, d)
      case Some(o) => [MarkFailed(o.act, f)]
      case None => if BuildingNow(active, d) then [] else [InstantFailure(opts, d, f, at)]
  {
  }

  /** The parts of a state after two failures, apart from what goes by order. */
  lemma FailPartsCommute(
    opts: Options, s: State, d: string, f: Failure, at: Stamp, e: string, g: Failure, atE: Stamp)
    requires d != e
    ensures Release(Release(s.held, d), e) == Release(Release(s.held, e), d)
    ensures s.failed[d := f][e := g] == s.failed[e := g][d := f]
    ensures FailEmits(opts, s.active, Release(s.held, d), e, g, atE) == FailEmits(opts, s.active, s.held, e, g, atE)
    ensures FailEmits(opts, s.active, Release(s.held, e), d, f, at) == FailEmits(opts, s.active, s.held, d, f, at)
  {
    ReleasesCommute(s.held, d, e);
    ReleasesCommute(s.held, e, d);
    EmitsByFirst(opts, s.active, s.held, d, f, at);
    EmitsByFirst(opts, s.active, s.held, e, g, atE);
    EmitsByFirst(opts, s.active, Release(s.held, e), d, f, at);
    EmitsByFirst(opts, s.active, Release(s.held, d), e, g, atE);
  }

  lemma FailsCommute(
    opts: Options, s: State, d: string, f: Failure, at: Stamp, e: string, g: Failure, atE: Stamp)
    requires d != e
    ensures Alike(BuildFailed(opts, BuildFailed(opts, s, d, f, at), e, g, atE),
                  BuildFailed(opts, BuildFailed(opts, s, e, g, atE), d, f, at))
  {
    if d !in s.failed && e !in s.failed {
      FailPartsCommute(opts, s, d, f, at, e, g, atE);
      SwapEmits(s.emitted, FailEmits(opts, s.active, s.held, d, f, at), FailEmits(opts, s.active, s.held, e, g, atE));
      BlamesCommute(s.sum, opts.nameOf(d), f, opts.nameOf(e), g);
    }
  }

  // ---------------------------------------------------------------- two messages

  function Noted(s: State, m: Message): State {
    State(s.active, s.held, s.failed, s.aggs, s.copies, s.started, MsgSum(s.sum, m), s.emitted)
  }

  function Failed(opts: Options, s: State, m: Message, at: Stamp): State
    requires Blames(m)
  {
    BuildFailed(opts, s, m.text.drv, FailureOf(m.text), at)
  }

  lemma AlikeSymmetric(s: State, t: State)
    requires Alike(s, t)
    ensures Alike(t, s)
  {
  }

  lemma NotesCommute(s: State, m: Message, m': Message)
    ensures Alike(Noted(Noted(s, m), m'), Noted(Noted(s, m'), m))
  {
    MsgSumsCommute(s.sum, m, m');
  }

  lemma NoteAndFail(opts: Options, s: State, m: Message, m': Message, at: Stamp)
    requires Blames(m)
    ensures Alike(Noted(Failed(opts, s, m, at), m'), Failed(opts, Noted(s, m'), m, at))
  {
    BlameAndMsgCommute(s.sum, opts.nameOf(m.text.drv), FailureOf(m.text), m');
  }

  lemma MessageInParts(opts: Options, s: State, m: Message, at: Stamp)
    ensures OnMsg(opts, s, m, at) == if Blames(m) then Failed(opts, Noted(s, m), m, at) else Noted(s, m)
  {
    assert Noted(s, m) == s.(sum := MsgSum(s.sum, m));
  }

  lemma NotedAlike(s: State, t: State, m: Message)
    requires Alike(s, t)
    ensures Alike(Noted(s, m), Noted(t, m))
  {
    MsgSumAlike(s.sum, t.sum, m);
  }

  predicate OtherDerivation(m: Message, m': Message)
    requires Blames(m)
  {
    Blames(m') ==> m'.text.drv != m.text.drv
  }

  /** The note of another message goes before or behind a failure. */
  lemma NoteMovesUp(opts: Options, s: State, m: Message, at: Stamp, m': Message)
    requires Blames(m)
    ensures Alike(Noted(Failed(opts, Noted(s, m), m, at), m'), Failed(opts, Noted(Noted(s, m'), m), m, at))
  {
    NoteAndFail(opts, Noted(s, m), m, m', at);
    NotesCommute(s, m, m');
    var x, y := Noted(Noted(s, m), m'), Noted(Noted(s, m'), m);
    FailAlike(opts, x, y, m.text.drv, FailureOf(m.text), at);
    AlikeTransitive(Noted(Failed(opts, Noted(s, m), m, at), m'), Failed(opts, x, m, at), Failed(opts, y, m, at));
  }

  lemma FailuresCommute(opts: Options, s: State, m: Message, at: Stamp, m': Message, at': Stamp)
    requires Blames(m) && Blames(m') && OtherDerivation(m, m')
    ensures Alike(Failed(opts, Noted(Failed(opts, Noted(s, m), m, at), m'), m', at'),
                  Failed(opts, Noted(Failed(opts, Noted(s, m'), m', at'), m), m, at))
  {
    var both := Noted(Noted(s, m'), m);
    var d, f, d', f' := m.text.drv, FailureOf(m.text), m'.text.drv, FailureOf(m'.text);
    var late, early := Noted(Failed(opts, Noted(s, m), m, at), m'), Noted(Failed(opts, Noted(s, m'), m', at'), m);
    NoteMovesUp(opts, s, m, at, m');
    FailAlike(opts, late, Failed(opts, both, m, at), d', f', at');
    FailsCommute(opts, both, d, f, at, d', f', at');
    var there := Failed(opts, Failed(opts, both, m, at), m', at');
    var back := Failed(opts, Failed(opts, both, m', at'), m, at);
    AlikeTransitive(Failed(opts, late, m', at'), there, back);
    NoteAndFail(opts, Noted(s, m'), m', m, at');
    FailAlike(opts, early, Failed(opts, both, m', at'), d, f, at);
    AlikeSymmetric(Failed(opts, early, m, at), back);
    AlikeTransitive(Failed(opts, late, m', at'), back, Failed(opts, early, m, at));
  }

  /** Two messages about different derivations, or one of them about none, can be exchanged. */
  lemma MessagesCommute(opts: Options, s: State, m: Message, at: Stamp, m': Message, at': Stamp)
    requires Blames(m) && OtherDerivation(m, m')
    ensures Alike(OnMsg(opts, OnMsg(opts, s, m, at), m', at'), OnMsg(opts, OnMsg(opts, s, m', at'), m, at))
  {
    MessageInParts(opts, s, m, at);
    MessageInParts(opts, s, m', at');
    MessageInParts(opts, OnMsg(opts, s, m, at), m', at');
    MessageInParts(opts, OnMsg(opts, s, m', at'), m, at);
    if Blames(m') {
      FailuresCommute(opts, s, m, at, m', at');
    } else {
      NoteMovesUp(opts, s, m, at, m');
    }
  }

  // ---------------------------------------------------------------- moving a message along a run

  /** An event that says nothing of d, starts no build of it, and reuses no open id. */
  ghost predicate Elsewhere(open: set<Id>, e: Event, d: string) {
    !NamesDerivation(e, d) && !StartsBuild(e, d) && !Reuses(open, e)
  }

  ghost predicate AllElsewhere(open: set<Id>, evs: seq<Stamped>, d: string)
    decreases evs
  {
    evs == [] || (Elsewhere(open, evs[0].event, d) && AllElsewhere(OpenAfter(open, evs[0].event), evs[1..], d))
  }

  lemma EventCommutes(opts: Options, s: State, e: Stamped, m: Message, at: Stamp)
    requires Blames(m) && OneBuild(s, m.text.drv) && Elsewhere(s.active.Keys, e.event, m.text.drv)
    ensures Alike(Step(opts, OnMsg(opts, s, m, at), e.event, e.at), OnMsg(opts, Step(opts, s, e.event, e.at), m, at))
  {
    if e.event.Msg? {
      MessagesCommute(opts, s, m, at, e.event.message, e.at);
    } else {
      MessageCommutes(opts, s, e, m, at);
      EquivalentIsAlike(Step(opts, OnMsg(opts, s, m, at), e.event, e.at),
                        OnMsg(opts, Step(opts, s, e.event, e.at), m, at));
    }
  }

  lemma {:induction false} MessageMovesAlong(
    opts: Options, s: State, st: Story, mid: seq<Stamped>, m: Message, at: Stamp)
    requires Blames(m) && Sound(s) && Follows(s, st, m.text.drv) && st.id.Some?
    requires AllElsewhere(s.active.Keys, mid, m.text.drv)
    ensures Alike(RunFrom(opts, OnMsg(opts, s, m, at), mid), OnMsg(opts, RunFrom(opts, s, mid), m, at))
    decreases mid
  {
    if mid != [] {
      var d, e, rest := m.text.drv, mid[0], mid[1..];
      var s1, early := Step(opts, s, e.event, e.at), Step(opts, OnMsg(opts, s, m, at), e.event, e.at);
      StoryMeansOneBuild(s, st, d);
      EventCommutes(opts, s, e, m, at);
      StepFollows(opts, s, st, e, d);
      OpenIsActive(opts, s, e);
      RunAlike(opts, early, OnMsg(opts, s1, m, at), rest);
      MessageMovesAlong(opts, s1, Tell(st, e.event, d), rest, m, at);
      AlikeTransitive(RunFrom(opts, early, rest), RunFrom(opts, OnMsg(opts, s1, m, at), rest),
                      OnMsg(opts, RunFrom(opts, s1, rest), m, at));
    }
  }

  /** Late errors equal early errors among other messages too: moving a failure message past anything that does
      not name its derivation, start it or reuse an open id changes neither the multiset of emitted activities
      nor any part of the summary but the first error and the list of failed derivations. */
  lemma LateErrorsAmongMessages(
    opts: Options, before: seq<Stamped>, mid: seq<Stamped>, after: seq<Stamped>, m: Message, at: Stamp,
    ids: seq<Id>, end: Stamp)
    requires Blames(m) && NoReuse({}, before) && StartsOnce(UNTOLD, before, m.text.drv)
    requires StoryOf(UNTOLD, before, m.text.drv).id.Some?
    requires AllElsewhere(OpenIds({}, before), mid, m.text.drv)
    requires DrainOrder(RunFrom(opts, EMPTY, before + [Stamped(Msg(m), at)] + mid + after).active, ids)
    ensures var early := RunFrom(opts, EMPTY, before + [Stamped(Msg(m), at)] + mid + after);
      var late := RunFrom(opts, EMPTY, before + mid + [Stamped(Msg(m), at)] + after);
      && DrainOrder(late.active, ids)
      && multiset(Finish(early, ids, end).emitted) == multiset(Finish(late, ids, end).emitted)
      && AlikeSum(Finish(early, ids, end).sum, Finish(late, ids, end).sum)
  {
    var d, one, s := m.text.drv, [Stamped(Msg(m), at)], RunFrom(opts, EMPTY, before);
    StartOfRun(opts, before, d);
    MessageMovesAlong(opts, s, StoryOf(UNTOLD, before, d), mid, m, at);
    SplitRun(opts, before, one, mid, after);
    SplitRun(opts, before, mid, one, after);
    OneStep(opts, s, m, at);
    OneStep(opts, RunFrom(opts, s, mid), m, at);
    var early, late := RunFrom(opts, OnMsg(opts, s, m, at), mid), OnMsg(opts, RunFrom(opts, s, mid), m, at);
    RunAlike(opts, early, late, after);
    FinishAlike(RunFrom(opts, early, after), RunFrom(opts, late, after), ids, end);
  }

  lemma StartOfRun(opts: Options, before: seq<Stamped>, d: string)
    requires NoReuse({}, before) && StartsOnce(UNTOLD, before, d)
    ensures var s := RunFrom(opts, EMPTY, before);
      Sound(s) && Follows(s, StoryOf(UNTOLD, before, d), d) && s.active.Keys == OpenIds({}, before)
  {
    assert EMPTY.active.Keys == {} && ActiveBuilds(EMPTY.active, d) == {} && HeldActs(EMPTY.held) == [];
    RunFollows(opts, EMPTY, UNTOLD, before, d);
    RunOpenIds(opts, EMPTY, before);
  }
}
