/** A failure message may arrive long after the build it names stopped: what the run reports is the
    same as if the message had come early. */
module LateErrors {
  import opened Basics
  import opened NixLog
  import opened NixLogLaws

  /** The same state, up to the order in which activities were emitted. */
  ghost predicate Equivalent(s: State, s': State) {
    s' == s.(emitted := s'.emitted) && multiset(s'.emitted) == multiset(s.emitted)
  }

  lemma FailRespects(opts: Options, s: State, s': State, d: string, f: Failure, at: Stamp)
    requires Equivalent(s, s')
    ensures Equivalent(BuildFailed(opts, s, d, f, at), BuildFailed(opts, s', d, f, at))
  {
  }

  lemma StepRespects(opts: Options, s: State, s': State, e: Stamped)
    requires Equivalent(s, s')
    ensures Equivalent(Step(opts, s, e.event, e.at), Step(opts, s', e.event, e.at))
  {
    match e.event
    case Start(_, _, _, _, _) =>
    case Stop(id) =>
    case Msg(m) =>
      var t, t' := s.(sum := MsgSum(s.sum, m)), s'.(sum := MsgSum(s.sum, m));
      if Blames(m) { FailRespects(opts, t, t', m.text.drv, FailureOf(m.text), e.at); }
    case Result(id, typ, fields) =>
  }

  lemma {:induction false} RunRespects(opts: Options, s: State, s': State, evs: seq<Stamped>)
    requires Equivalent(s, s')
    ensures Equivalent(RunFrom(opts, s, evs), RunFrom(opts, s', evs))
    decreases evs
  {
    if evs != [] {
      StepRespects(opts, s, s', evs[0]);
      RunRespects(opts, Step(opts, s, evs[0].event, evs[0].at), Step(opts, s', evs[0].event, evs[0].at), evs[1..]);
    }
  }

  // ---------------------------------------------------------------- a message and an event commute

  /** The build of d is accounted for once: already blamed, or held, or running. */
  ghost predicate OneBuild(s: State, d: string) {
    && Sound(s)
    && (d in s.failed || |HeldBuilds(s, d)| + |ActiveBuilds(s.active, d)| == 1)
  }

  /** An event that is no message, starts no build of d, and reuses no open id. */
  ghost predicate Quiet(open: set<Id>, e: Event, d: string) {
    !e.Msg? && !StartsBuild(e, d) && !Reuses(open, e)
  }

  lemma StartSumCommutes(sum: Summary, e: Event, at: Stamp, m: Message)
    requires e.Start?
    ensures StartSum(MsgSum(sum, m), e, at) == MsgSum(StartSum(sum, e, at), m)
  {
  }

  lemma CountedCommutes(sum: Summary, acts: seq<Activity>, m: Message)
    ensures Counted(MsgSum(sum, m), acts) == MsgSum(Counted(sum, acts), m)
  {
  }

  lemma FoldedCommutes(sum: Summary, m: Message)
    ensures FoldedOnce(MsgSum(sum, m)) == MsgSum(FoldedOnce(sum), m)
  {
  }

  lemma StartAndSummary(opts: Options, s: State, sum: Summary, e: Event, at: Stamp)
    requires e.Start?
    ensures OnStart(opts, s.(sum := sum), e, at) == OnStart(opts, s, e, at).(sum := StartSum(sum, e, at))
  {
  }

  lemma StopAndSummary(opts: Options, s: State, sum: Summary, id: Id, at: Stamp)
    ensures OnStop(opts, s.(sum := sum), id, at) ==
      OnStop(opts, s, id, at).(sum := Counted(sum, StopEmits(opts, s.active, s.failed, id, at)))
  {
  }

  predicate Folds(s: State, id: Id, typ: int, fields: Option<(int, int, int, int)>) {
    typ == TYPE_PROGRESS && Tracked(s, id) && fields.Some?
  }

  function FoldedOnce(sum: Summary): Summary {
    sum.(folded := sum.folded + 1)
  }

  lemma ResultAndSummary(s: State, sum: Summary, id: Id, typ: int, fields: Option<(int, int, int, int)>)
    ensures OnResult(s.(sum := sum), id, typ, fields) ==
      OnResult(s, id, typ, fields).(sum := if Folds(s, id, typ, fields) then FoldedOnce(sum) else sum)
  {
  }

  /** Messages and other events write different parts of the summary. */
  lemma SummariesCommute(opts: Options, s: State, e: Stamped, m: Message)
    requires !e.event.Msg?
    ensures Step(opts, s.(sum := MsgSum(s.sum, m)), e.event, e.at) ==
            var t := Step(opts, s, e.event, e.at); t.(sum := MsgSum(t.sum, m))
  {
    match e.event
    case Start(_, _, _, _, _) =>
      StartAndSummary(opts, s, MsgSum(s.sum, m), e.event, e.at);
      StartSumCommutes(s.sum, e.event, e.at, m);
    case Stop(id) =>
      StopAndSummary(opts, s, MsgSum(s.sum, m), id, e.at);
      CountedCommutes(s.sum, StopEmits(opts, s.active, s.failed, id, e.at), m);
    case Result(id, typ, fields) =>
      ResultAndSummary(s, MsgSum(s.sum, m), id, typ, fields);
      ResultAndSummary(s, s.sum, id, typ, fields);
      FoldedCommutes(s.sum, m);
  }

  lemma BlameSumCommutes(sum: Summary, acts: seq<Activity>, name: string, f: Failure)
    ensures Counted(BlameSum(sum, name, f), acts) == BlameSum(Counted(sum, acts), name, f)
    ensures BlameSum(sum, name, f).(folded := sum.folded + 1) == BlameSum(sum.(folded := sum.folded + 1), name, f)
    ensures |acts| == 0 || (|acts| == 1 && acts[0].kind.Build?) ==> Counted(sum, acts) == sum
  {
    if |acts| == 1 { assert WaitCount(acts[1..]) == 0; }
  }

  lemma FailAfterStart(opts: Options, s: State, e: Event, at: Stamp, d: string, f: Failure, atF: Stamp)
    requires e.Start? && Quiet(s.active.Keys, e, d)
    ensures BuildFailed(opts, OnStart(opts, s, e, at), d, f, atF) ==
            OnStart(opts, BuildFailed(opts, s, d, f, atF), e, at)
  {
    var active := StartActive(opts, s.active, s.started, e, at);
    assert ActiveBuilds(active, d) == ActiveBuilds(s.active, d);
    BuildingIff(s.active, d);
    BuildingIff(active, d);
  }

  lemma FailAfterResult(opts: Options, s: State, id: Id, typ: int, fields: Option<(int, int, int, int)>,
                        d: string, f: Failure, atF: Stamp)
    ensures BuildFailed(opts, OnResult(s, id, typ, fields), d, f, atF) ==
            OnResult(BuildFailed(opts, s, d, f, atF), id, typ, fields)
  {
    if d !in s.failed && typ == TYPE_PROGRESS && Tracked(s, id) && fields.Some? {
      FailAfterFold(opts, s, id, fields.value, d, f, atF);
    }
  }

  lemma FailAfterFold(opts: Options, s: State, id: Id, n: (int, int, int, int), d: string, f: Failure, atF: Stamp)
    requires d !in s.failed
    ensures BuildFailed(opts, Fold(s, id, n), d, f, atF) == Fold(BuildFailed(opts, s, d, f, atF), id, n)
  {
    var active := FoldActive(s, id, n);
    assert ActiveBuilds(active, d) == ActiveBuilds(s.active, d);
    BuildingIff(s.active, d);
    BuildingIff(active, d);
    BlameSumCommutes(s.sum, [], opts.nameOf(d), f);
    assert FailEmits(opts, active, s.held, d, f, atF) == FailEmits(opts, s.active, s.held, d, f, atF);
  }

  lemma {:induction false} FindHeldAppend(held: seq<Open>, o: Open, d: string)
    ensures FindHeld(held + [o], d) ==
      if FindHeld(held, d) < |held| then FindHeld(held, d) else if o.act.path == d then |held| else |held| + 1
  {
    if held != [] && held[0].act.path != d {
      assert (held + [o])[1..] == held[1..] + [o];
      FindHeldAppend(held[1..], o, d);
    }
  }

  /** The build of d itself stops: held and then blamed is the same as blamed and then emitted failed. */
  lemma FailAfterOwnStop(opts: Options, s: State, id: Id, at: Stamp, d: string, f: Failure, atF: Stamp)
    requires OneBuild(s, d) && d !in s.failed && id in s.active && IsBuildOf(s.active[id].act, d)
    ensures Equivalent(OnStop(opts, BuildFailed(opts, s, d, f, atF), id, at),
                       BuildFailed(opts, OnStop(opts, s, id, at), d, f, atF))
  {
    OwnStopParts(opts, s, id, at, d, f, atF);
    BlameSumCommutes(s.sum, [], opts.nameOf(d), f);
    var name, acts := opts.nameOf(d), [MarkFailed(Ended(s.active, id, at).act, f)];
    BlameSumCommutes(BlameSum(s.sum, name, f), acts, name, f);
    assert s.emitted + [] == s.emitted;
  }

  lemma OwnStopParts(opts: Options, s: State, id: Id, at: Stamp, d: string, f: Failure, atF: Stamp)
    requires OneBuild(s, d) && d !in s.failed && id in s.active && IsBuildOf(s.active[id].act, d)
    ensures FindHeld(s.held, d) == |s.held| && FailEmits(opts, s.active, s.held, d, f, atF) == []
    ensures StopEmits(opts, s.active, s.failed, id, at) == []
    ensures StopEmits(opts, s.active, s.failed[d := f], id, at) == [MarkFailed(Ended(s.active, id, at).act, f)]
    ensures StopHeld(s.active, s.failed[d := f], s.held, id, at) == s.held
    ensures var held := StopHeld(s.active, s.failed, s.held, id, at);
      && Without(held, FindHeld(held, d)) == s.held
      && FailEmits(opts, s.active - {id}, held, d, f, atF) == [MarkFailed(Ended(s.active, id, at).act, f)]
  {
    assert id in ActiveBuilds(s.active, d);
    assert HeldBuilds(s, d) == [];
    FindHeldIff(s.held, d);
    BuildingIff(s.active, d);
    FindHeldAppend(s.held, Ended(s.active, id, at), d);
    assert Without(s.held + [Ended(s.active, id, at)], |s.held|) == s.held;
  }

  /** Another activity stops. */
  lemma FailAfterOtherStop(opts: Options, s: State, id: Id, at: Stamp, d: string, f: Failure, atF: Stamp)
    requires OneBuild(s, d) && d !in s.failed && (id in s.active ==> !IsBuildOf(s.active[id].act, d))
    ensures Equivalent(OnStop(opts, BuildFailed(opts, s, d, f, atF), id, at),
                       BuildFailed(opts, OnStop(opts, s, id, at), d, f, atF))
  {
    assert StopEmits(opts, s.active, s.failed[d := f], id, at) == StopEmits(opts, s.active, s.failed, id, at);
    OtherStopHeld(s, id, at, d, f);
    FailEmitsSame(opts, s, id, at, d, f, atF);
    BlameSumCommutes(s.sum, StopEmits(opts, s.active, s.failed, id, at), opts.nameOf(d), f);
    SwapEmits(s.emitted, FailEmits(opts, s.active, s.held, d, f, atF), StopEmits(opts, s.active, s.failed, id, at));
  }

  lemma OtherStopHeld(s: State, id: Id, at: Stamp, d: string, f: Failure)
    requires d !in s.failed && (id in s.active ==> !IsBuildOf(s.active[id].act, d))
    ensures var held, less := StopHeld(s.active, s.failed, s.held, id, at), Without(s.held, FindHeld(s.held, d));
      StopHeld(s.active, s.failed[d := f], less, id, at) == Without(held, FindHeld(held, d))
  {
    assert Holds(s.active, s.failed[d := f], id) == Holds(s.active, s.failed, id);
    if Holds(s.active, s.failed, id) {
      var i, o := FindHeld(s.held, d), Ended(s.active, id, at);
      FindHeldAppend(s.held, o, d);
      if i < |s.held| {
        assert Without(s.held + [o], i) == Without(s.held, i) + [o];
      } else {
        assert Without(s.held + [o], |s.held| + 1) == s.held + [o];
      }
    }
  }

  lemma SwapEmits(emitted: seq<Activity>, a: seq<Activity>, b: seq<Activity>)
    ensures multiset(emitted + a + b) == multiset(emitted + b + a)
  {
  }

  lemma FailEmitsSame(opts: Options, s: State, id: Id, at: Stamp, d: string, f: Failure, atF: Stamp)
    requires OneBuild(s, d) && d !in s.failed && (id in s.active ==> !IsBuildOf(s.active[id].act, d))
    ensures FailEmits(opts, s.active - {id}, StopHeld(s.active, s.failed, s.held, id, at), d, f, atF)
         == FailEmits(opts, s.active, s.held, d, f, atF)
  {
    FindHeldIff(s.held, d);
    BuildingIff(s.active, d);
    BuildingIff(s.active - {id}, d);
    assert ActiveBuilds(s.active - {id}, d) == ActiveBuilds(s.active, d);
    if id in s.active { FindHeldAppend(s.held, Ended(s.active, id, at), d); }
  }

  lemma FailAfterStop(opts: Options, s: State, id: Id, at: Stamp, d: string, f: Failure, atF: Stamp)
    requires OneBuild(s, d) && d !in s.failed
    ensures Equivalent(OnStop(opts, BuildFailed(opts, s, d, f, atF), id, at),
                       BuildFailed(opts, OnStop(opts, s, id, at), d, f, atF))
  {
    if id in s.active && IsBuildOf(s.active[id].act, d) {
      FailAfterOwnStop(opts, s, id, at, d, f, atF);
    } else {
      FailAfterOtherStop(opts, s, id, at, d, f, atF);
    }
  }

  /** One step: the message before the event, or the event before the message. */
  lemma MessageCommutes(opts: Options, s: State, e: Stamped, m: Message, atF: Stamp)
    requires Blames(m) && OneBuild(s, m.text.drv) && Quiet(s.active.Keys, e.event, m.text.drv)
    ensures Equivalent(Step(opts, OnMsg(opts, s, m, atF), e.event, e.at),
                       OnMsg(opts, Step(opts, s, e.event, e.at), m, atF))
  {
    var d, f, noted := m.text.drv, FailureOf(m.text), s.(sum := MsgSum(s.sum, m));
    SummariesCommute(opts, s, e, m);
    assert HeldBuilds(noted, d) == HeldBuilds(s, d);
    match e.event
    case Start(_, _, _, _, _) => FailAfterStart(opts, noted, e.event, e.at, d, f, atF);
    case Stop(id) => if d !in s.failed { FailAfterStop(opts, noted, id, e.at, d, f, atF); }
    case Result(id, typ, fields) => FailAfterResult(opts, noted, id, typ, fields, d, f, atF);
  }

  // ---------------------------------------------------------------- moving a message along a run

  /** Only starts, stops and progress, none of them starting d again or reusing an open id. */
  ghost predicate AllQuiet(open: set<Id>, evs: seq<Stamped>, d: string)
    decreases evs
  {
    evs == [] || (Quiet(open, evs[0].event, d) && AllQuiet(OpenAfter(open, evs[0].event), evs[1..], d))
  }

  /** A build the story knows of is accounted for once, at every later point of the run. */
  lemma StoryMeansOneBuild(s: State, st: Story, d: string)
    requires Sound(s) && Follows(s, st, d) && st.id.Some?
    ensures OneBuild(s, d)
  {
  }

  lemma {:induction false} MessageMoves(opts: Options, s: State, st: Story, mid: seq<Stamped>, m: Message, atF: Stamp)
    requires Blames(m) && Sound(s) && Follows(s, st, m.text.drv) && st.id.Some?
    requires AllQuiet(s.active.Keys, mid, m.text.drv)
    ensures Equivalent(RunFrom(opts, OnMsg(opts, s, m, atF), mid), OnMsg(opts, RunFrom(opts, s, mid), m, atF))
    decreases mid
  {
    if mid != [] {
      var d, e := m.text.drv, mid[0];
      StoryMeansOneBuild(s, st, d);
      MessageCommutes(opts, s, e, m, atF);
      var s1 := Step(opts, s, e.event, e.at);
      StepFollows(opts, s, st, e, d);
      OpenIsActive(opts, s, e);
      RunRespects(opts, Step(opts, OnMsg(opts, s, m, atF), e.event, e.at), OnMsg(opts, s1, m, atF), mid[1..]);
      MessageMoves(opts, s1, Tell(st, e.event, d), mid[1..], m, atF);
    }
  }

  lemma FinishRespects(s: State, s': State, ids: seq<Id>, end: Stamp)
    requires Equivalent(s, s') && DrainOrder(s.active, ids)
    ensures DrainOrder(s'.active, ids) && Equivalent(Finish(s, ids, end), Finish(s', ids, end))
  {
  }

  /** Late errors equal early errors: once a derivation's build has started, moving the message that
      names it past any starts, stops and progress changes neither the final multiset of emitted
      activities nor the failure kinds. */
  lemma LateErrorsEqualEarlyErrors(opts: Options, before: seq<Stamped>, mid: seq<Stamped>, after: seq<Stamped>,
                                   m: Message, atF: Stamp, ids: seq<Id>, end: Stamp)
    requires Blames(m) && NoReuse({}, before) && StartsOnce(UNTOLD, before, m.text.drv)
    requires StoryOf(UNTOLD, before, m.text.drv).id.Some?
    requires AllQuiet(OpenIds({}, before), mid, m.text.drv)
    requires DrainOrder(RunFrom(opts, EMPTY, before + [Stamped(Msg(m), atF)] + mid + after).active, ids)
    ensures var early := RunFrom(opts, EMPTY, before + [Stamped(Msg(m), atF)] + mid + after);
      var late := RunFrom(opts, EMPTY, before + mid + [Stamped(Msg(m), atF)] + after);
      && DrainOrder(late.active, ids)
      && multiset(Finish(late, ids, end).emitted) == multiset(Finish(early, ids, end).emitted)
      && Finish(late, ids, end).sum == Finish(early, ids, end).sum
  {
    var d, one, s := m.text.drv, [Stamped(Msg(m), atF)], RunFrom(opts, EMPTY, before);
    assert EMPTY.active.Keys == {} && ActiveBuilds(EMPTY.active, d) == {} && HeldActs(EMPTY.held) == [];
    RunFollows(opts, EMPTY, UNTOLD, before, d);
    RunOpenIds(opts, EMPTY, before);
    MessageMoves(opts, s, StoryOf(UNTOLD, before, d), mid, m, atF);
    SplitRun(opts, before, one, mid, after);
    SplitRun(opts, before, mid, one, after);
    OneStep(opts, s, m, atF);
    OneStep(opts, RunFrom(opts, s, mid), m, atF);
    var early, late := RunFrom(opts, OnMsg(opts, s, m, atF), mid), OnMsg(opts, RunFrom(opts, s, mid), m, atF);
    RunRespects(opts, early, late, after);
    FinishRespects(RunFrom(opts, early, after), RunFrom(opts, late, after), ids, end);
  }

  lemma OneStep(opts: Options, s: State, m: Message, at: Stamp)
    ensures RunFrom(opts, s, [Stamped(Msg(m), at)]) == OnMsg(opts, s, m, at)
  {
    assert RunFrom(opts, s, [Stamped(Msg(m), at)]) == RunFrom(opts, Step(opts, s, Msg(m), at), []);
  }

  lemma SplitRun(opts: Options, a: seq<Stamped>, b: seq<Stamped>, c: seq<Stamped>, d: seq<Stamped>)
    ensures RunFrom(opts, EMPTY, a + b + c + d) ==
            RunFrom(opts, RunFrom(opts, RunFrom(opts, RunFrom(opts, EMPTY, a), b), c), d)
  {
    RunConcat(opts, EMPTY, a + b + c, d);
    RunConcat(opts, EMPTY, a + b, c);
    RunConcat(opts, EMPTY, a, b);
  }
}
