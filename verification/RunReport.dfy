/** What a run reports, read off its events: the functions here look back over the events, the machine looks
    at its state, and the two agree. */
module RunReport {
  import opened Basics
  import opened Names
  import opened NixLog
  import opened NixLogLaws
  import ResultLine

  lemma RunNext(opts: Options, evs: seq<Stamped>, e: Stamped)
    ensures RunFrom(opts, EMPTY, evs + [e]) == Step(opts, RunFrom(opts, EMPTY, evs), e.event, e.at)
  {
    RunConcat(opts, EMPTY, evs, [e]);
    assert [e][1..] == [];
  }

  lemma SplitEvents(evs: seq<Stamped>)
    ensures evs != [] ==> evs == evs[..|evs| - 1] + [evs[|evs| - 1]]
  {
  }

  // ---------------------------------------------------------------- looking back

  predicate Opens(e: Event, x: Id) {
    e.Start? && e.id == x && e.typ in {105, 108, 111}
  }

  // The start that an activity has been open since, and how many activities had been started by then.
  datatype Opening = Opening(event: Event, at: Stamp, number: nat)

  function Starts(evs: seq<Stamped>): nat {
    if evs == [] then 0
    else
      var e := evs[|evs| - 1].event;
      Starts(evs[..|evs| - 1]) + if e.Start? && e.typ in {105, 108, 111} then 1 else 0
  }

  function OpenedBy(evs: seq<Stamped>, x: Id): (r: Option<Opening>)
    ensures r.Some? ==> Opens(r.value.event, x)
  {
    if evs == [] then None
    else
      var e := evs[|evs| - 1];
      if Opens(e.event, x) then Some(Opening(e.event, e.at, Starts(evs)))
      else if e.event == Stop(x) then None
      else OpenedBy(evs[..|evs| - 1], x)
  }

  predicate OpenDownload(evs: seq<Stamped>, x: Id) {
    OpenedBy(evs, x).Some? && OpenedBy(evs, x).value.event.typ == 108
  }

  /** The download that activity c copies the path of. */
  function CopyOf(evs: seq<Stamped>, c: Id): Option<Id> {
    if evs == [] then None
    else
      var init, e := evs[..|evs| - 1], evs[|evs| - 1].event;
      if e.Start? && e.id == c && e.typ == 100 && OpenDownload(init, e.parent) then Some(e.parent)
      else if e == Stop(c) then None
      else CopyOf(init, c)
  }

  /** The totals nix reports for all builds or all copies, as last heard of. */
  function TotalsOf(evs: seq<Stamped>, x: Id): Option<Aggregate> {
    if evs == [] then None
    else
      var init, e := evs[..|evs| - 1], evs[|evs| - 1].event;
      var before := TotalsOf(init, x);
      if e.Start? && e.id == x && e.typ in {103, 104}
      then Some(Aggregate(e.typ, TotalsOf(init, e.parent).Some?, false, Progress(0, 0, 0)))
      else if e.Result? && e.id == x && e.typ == 105 && e.fields.Some? && before.Some?
      then Some(Aggregate(before.value.typ, before.value.nested, true,
                          Progress(e.fields.value.0, e.fields.value.1, e.fields.value.3)))
      else before
  }

  /** An event that reports progress of download x: of its own, or of a copy of it. */
  predicate ReportsOn(init: seq<Stamped>, e: Event, x: Id) {
    && e.Result? && e.typ == 105 && e.fields.Some? && TotalsOf(init, e.id).None?
    && x == (if CopyOf(init, e.id).Some? then CopyOf(init, e.id).value else e.id)
    && OpenDownload(init, x)
  }

  /** The first number of the last progress reported on x since it was opened. */
  function BytesOf(evs: seq<Stamped>, x: Id): Option<int> {
    if evs == [] then None
    else
      var init, e := evs[..|evs| - 1], evs[|evs| - 1].event;
      if Opens(e, x) then None
      else if ReportsOn(init, e, x) then Some(e.fields.value.0)
      else BytesOf(init, x)
  }

  function KindOfStart(typ: int): NixLog.Kind {
    if typ == 105 then Build else if typ == 108 then Substitute else Wait
  }

  /** The record of an activity that is open after these events. */
  function Record(opts: Options, evs: seq<Stamped>, x: Id): Activity
    requires OpenedBy(evs, x).Some?
  {
    var o, bytes := OpenedBy(evs, x).value, BytesOf(evs, x);
    Activity(KindOfStart(o.event.typ), opts.nameOf(o.event.path), o.event.path,
             if o.event.typ == 108 then o.event.server else "", o.at, 0, false, NoError, "", false, false,
             if bytes.Some? then bytes.value else 0, bytes.Some?, false)
  }

  function Get<T>(m: map<Id, T>, x: Id): Option<T> {
    if x in m then Some(m[x]) else None
  }

  /** What the machine keeps of x is what looking back says. */
  ghost predicate AgreesOn(opts: Options, s: State, evs: seq<Stamped>, x: Id) {
    && Get(s.active, x) ==
         (if OpenedBy(evs, x).Some? then Some(Open(Record(opts, evs, x), OpenedBy(evs, x).value.number)) else None)
    && Get(s.copies, x) == CopyOf(evs, x)
    && Get(s.aggs, x) == TotalsOf(evs, x)
  }

  ghost predicate Agrees(opts: Options, s: State, evs: seq<Stamped>) {
    (forall x :: AgreesOn(opts, s, evs, x)) && s.started == Starts(evs)
  }

  // What one more event adds to each of the looks back.
  lemma LookNext(evs: seq<Stamped>, e: Stamped, x: Id)
    ensures OpenedBy(evs + [e], x) ==
      if Opens(e.event, x) then Some(Opening(e.event, e.at, Starts(evs + [e])))
      else if e.event == Stop(x) then None else OpenedBy(evs, x)
    ensures CopyOf(evs + [e], x) ==
      if e.event.Start? && e.event.id == x && e.event.typ == 100 && OpenDownload(evs, e.event.parent)
      then Some(e.event.parent) else if e.event == Stop(x) then None else CopyOf(evs, x)
    ensures BytesOf(evs + [e], x) ==
      if Opens(e.event, x) then None
      else if ReportsOn(evs, e.event, x) then Some(e.event.fields.value.0) else BytesOf(evs, x)
  {
    assert (evs + [e])[..|evs|] == evs;
  }

  lemma StartsNext(evs: seq<Stamped>, e: Stamped)
    ensures Starts(evs + [e]) == Starts(evs) + if e.event.Start? && e.event.typ in {105, 108, 111} then 1 else 0
  {
    assert (evs + [e])[..|evs|] == evs;
  }

  lemma TotalsNext(evs: seq<Stamped>, e: Stamped, x: Id)
    ensures var before, ev := TotalsOf(evs, x), e.event;
      TotalsOf(evs + [e], x) ==
      if ev.Start? && ev.id == x && ev.typ in {103, 104}
      then Some(Aggregate(ev.typ, TotalsOf(evs, ev.parent).Some?, false, Progress(0, 0, 0)))
      else if ev.Result? && ev.id == x && ev.typ == 105 && ev.fields.Some? && before.Some?
      then Some(Aggregate(before.value.typ, before.value.nested, true,
                          Progress(ev.fields.value.0, ev.fields.value.1, ev.fields.value.3)))
      else before
  {
    assert (evs + [e])[..|evs|] == evs;
  }

  lemma StartAgrees(opts: Options, s: State, evs: seq<Stamped>, e: Stamped, x: Id)
    requires Agrees(opts, s, evs) && e.event.Start?
    ensures AgreesOn(opts, OnStart(opts, s, e.event, e.at), evs + [e], x)
  {
    LookNext(evs, e, x);
    StartsNext(evs, e);
    TotalsNext(evs, e, x);
    assert AgreesOn(opts, s, evs, x) && AgreesOn(opts, s, evs, e.event.parent);
  }

  lemma StopAgrees(opts: Options, s: State, evs: seq<Stamped>, e: Stamped, x: Id)
    requires Agrees(opts, s, evs) && e.event.Stop?
    ensures AgreesOn(opts, OnStop(opts, s, e.event.id, e.at), evs + [e], x)
  {
    LookNext(evs, e, x);
    TotalsNext(evs, e, x);
    assert AgreesOn(opts, s, evs, x);
  }

  lemma MsgLeaves(opts: Options, s: State, m: Message, at: Stamp)
    ensures var s' := OnMsg(opts, s, m, at);
      s'.active == s.active && s'.copies == s.copies && s'.aggs == s.aggs && s'.started == s.started
  {
  }

  lemma MsgAgrees(opts: Options, s: State, evs: seq<Stamped>, e: Stamped, x: Id)
    requires AgreesOn(opts, s, evs, x) && e.event.Msg?
    ensures AgreesOn(opts, OnMsg(opts, s, e.event.message, e.at), evs + [e], x)
  {
    LookNext(evs, e, x);
    TotalsNext(evs, e, x);
    MsgLeaves(opts, s, e.event.message, e.at);
  }

  lemma ResultAgrees(opts: Options, s: State, evs: seq<Stamped>, e: Stamped, x: Id)
    requires Agrees(opts, s, evs) && e.event.Result?
    ensures AgreesOn(opts, OnResult(s, e.event.id, e.event.typ, e.event.fields), evs + [e], x)
  {
    LookNext(evs, e, x);
    TotalsNext(evs, e, x);
    assert AgreesOn(opts, s, evs, x) && AgreesOn(opts, s, evs, e.event.id);
    var y := if e.event.id in s.copies then s.copies[e.event.id] else e.event.id;
    assert AgreesOn(opts, s, evs, y);
  }

  /** At every point of a run the open activities, their bytes and start numbers, the owners of copies and the
      totals are those that the events so far name. */
  lemma {:induction false} RunAgrees(opts: Options, evs: seq<Stamped>)
    ensures Agrees(opts, RunFrom(opts, EMPTY, evs), evs)
  {
    if evs != [] {
      var init, e := evs[..|evs| - 1], evs[|evs| - 1];
      SplitEvents(evs);
      RunNext(opts, init, e);
      RunAgrees(opts, init);
      StartsNext(init, e);
      var s := RunFrom(opts, EMPTY, init);
      forall x ensures AgreesOn(opts, Step(opts, s, e.event, e.at), evs, x) {
        match e.event
        case Start(_, _, _, _, _) => StartAgrees(opts, s, init, e, x);
        case Stop(_) => StopAgrees(opts, s, init, e, x);
        case Msg(_) =>
          assert AgreesOn(opts, s, init, x);
          MsgAgrees(opts, s, init, e, x);
        case Result(_, _, _) => ResultAgrees(opts, s, init, e, x);
      }
    }
  }

  // ---------------------------------------------------------------- downloads and waits

  /** The emitted activities that are not builds. */
  ghost function Others(acts: seq<Activity>): seq<Activity> {
    if acts == [] then [] else (if acts[0].kind.Build? then [] else [acts[0]]) + Others(acts[1..])
  }

  lemma {:induction false} OthersConcat(a: seq<Activity>, b: seq<Activity>)
    ensures Others(a + b) == Others(a) + Others(b)
  {
    if a == [] {
      assert a + b == b;
    } else {
      assert (a + b)[0] == a[0] && (a + b)[1..] == a[1..] + b;
      OthersConcat(a[1..], b);
      ConcatAssociative(if a[0].kind.Build? then [] else [a[0]], Others(a[1..]), Others(b));
    }
  }

  lemma {:induction false} NoOthers(acts: seq<Activity>)
    requires forall a | a in acts :: a.kind.Build?
    ensures Others(acts) == []
  {
    if acts != [] {
      assert acts[0] in acts;
      NoOthers(acts[1..]);
    }
  }

  lemma OthersOne(a: Activity)
    ensures Others([a]) == if a.kind.Build? then [] else [a]
  {
    assert [a][1..] == [];
  }

  /** The record of a download or a wait that stops: a download shorter than the least span gets none. */
  function StoppedRecord(opts: Options, evs: seq<Stamped>, x: Id, end: Stamp): Activity
    requires OpenedBy(evs, x).Some?
  {
    var a := Record(opts, evs, x).(end := end);
    if a.kind.Substitute? && opts.minSubstituteSpan > 0 && end - a.start < opts.minSubstituteSpan
    then a.(noSpan := true) else a
  }

  /** One record for each stop of an open download or wait, in the order of the stops. */
  function StoppedOthers(opts: Options, evs: seq<Stamped>): seq<Activity> {
    if evs == [] then []
    else
      var init, e := evs[..|evs| - 1], evs[|evs| - 1];
      StoppedOthers(opts, init) +
        if e.event.Stop? && OpenedBy(init, e.event.id).Some? && OpenedBy(init, e.event.id).value.event.typ != 105
        then [StoppedRecord(opts, init, e.event.id, e.at)] else []
  }

  ghost predicate HoldsBuilds(s: State) {
    forall o | o in s.held :: o.act.kind.Build?
  }

  lemma StepOthers(opts: Options, s: State, evs: seq<Stamped>, e: Stamped)
    requires AgreesOn(opts, s, evs, if e.event.Stop? then e.event.id else 0) && HoldsBuilds(s)
    ensures HoldsBuilds(Step(opts, s, e.event, e.at))
    ensures Others(Step(opts, s, e.event, e.at).emitted) == Others(s.emitted) +
      if e.event.Stop? && OpenedBy(evs, e.event.id).Some? && OpenedBy(evs, e.event.id).value.event.typ != 105
      then [StoppedRecord(opts, evs, e.event.id, e.at)] else []
  {
    assert Others(s.emitted) + [] == Others(s.emitted);
    match e.event
    case Start(_, _, _, _, _) =>
    case Stop(id) => StopOthers(opts, s, evs, id, e.at);
    case Msg(m) => if Blames(m) { FailOthers(opts, s.(sum := MsgSum(s.sum, m)), m.text.drv, FailureOf(m.text), e.at); }
    case Result(_, _, _) =>
  }

  lemma StopOthers(opts: Options, s: State, evs: seq<Stamped>, id: Id, at: Stamp)
    requires AgreesOn(opts, s, evs, id) && HoldsBuilds(s)
    ensures HoldsBuilds(OnStop(opts, s, id, at))
    ensures Others(OnStop(opts, s, id, at).emitted) == Others(s.emitted) +
      if OpenedBy(evs, id).Some? && OpenedBy(evs, id).value.event.typ != 105
      then [StoppedRecord(opts, evs, id, at)] else []
  {
    var emits := StopEmits(opts, s.active, s.failed, id, at);
    OthersConcat(s.emitted, emits);
    if emits != [] {
      assert emits == [emits[0]];
      OthersOne(emits[0]);
    }
  }

  lemma FailOthers(opts: Options, s: State, drv: string, f: Failure, at: Stamp)
    requires HoldsBuilds(s)
    ensures var s' := BuildFailed(opts, s, drv, f, at); HoldsBuilds(s') && Others(s'.emitted) == Others(s.emitted)
  {
    if drv !in s.failed {
      var i := FindHeld(s.held, drv);
      WithoutIsPart(s.held, i);
      if i < |s.held| { assert s.held[i] in s.held; }
      var emits := FailEmits(opts, s.active, s.held, drv, f, at);
      NoOthers(emits);
      OthersConcat(s.emitted, emits);
    }
  }

  /** The downloads and waits emitted so far are those that were opened and then stopped, each with the start,
      path and server of its opening, the end of its stop, and for a download the bytes last reported on it
      and no span exactly when it is shorter than the least span. */
  lemma {:induction false} EmittedOthers(opts: Options, evs: seq<Stamped>)
    ensures HoldsBuilds(RunFrom(opts, EMPTY, evs))
    ensures Others(RunFrom(opts, EMPTY, evs).emitted) == StoppedOthers(opts, evs)
  {
    if evs != [] {
      var init, e := evs[..|evs| - 1], evs[|evs| - 1];
      SplitEvents(evs);
      RunNext(opts, init, e);
      EmittedOthers(opts, init);
      RunAgrees(opts, init);
      StepOthers(opts, RunFrom(opts, EMPTY, init), init, e);
    }
  }

  /** The record of an activity that is open when the run ends. */
  function CutOff(opts: Options, evs: seq<Stamped>, x: Id, end: Stamp): Activity
    requires OpenedBy(evs, x).Some?
  {
    Record(opts, evs, x).(end := end, failed := true, errorType := Aborted,
                          reason := "nix exited before the activity stopped")
  }

  ghost function CutOffs(opts: Options, evs: seq<Stamped>, ids: seq<Id>, end: Stamp): seq<Activity>
    requires forall x | x in ids :: OpenedBy(evs, x).Some?
  {
    seq(|ids|, i requires 0 <= i < |ids| => CutOff(opts, evs, ids[i], end))
  }

  /** ids are the activities open at the end, in the order in which they were started. */
  ghost predicate OpenInOrder(evs: seq<Stamped>, ids: seq<Id>) {
    && (forall x :: x in ids <==> OpenedBy(evs, x).Some?)
    && Distinct(ids)
    && forall i, j | 0 <= i < j < |ids| && OpenedBy(evs, ids[i]).Some? && OpenedBy(evs, ids[j]).Some? ::
         OpenedBy(evs, ids[i]).value.number <= OpenedBy(evs, ids[j]).value.number
  }

  lemma DrainIsInOrder(opts: Options, s: State, evs: seq<Stamped>, ids: seq<Id>)
    requires Agrees(opts, s, evs) && DrainOrder(s.active, ids)
    ensures OpenInOrder(evs, ids)
  {
    forall x ensures x in ids <==> OpenedBy(evs, x).Some? {
      assert AgreesOn(opts, s, evs, x);
      assert x in ids <==> x in Elems(ids);
    }
    forall i, j | 0 <= i < j < |ids| && OpenedBy(evs, ids[i]).Some? && OpenedBy(evs, ids[j]).Some?
      ensures OpenedBy(evs, ids[i]).value.number <= OpenedBy(evs, ids[j]).value.number
    {
      assert AgreesOn(opts, s, evs, ids[i]) && AgreesOn(opts, s, evs, ids[j]);
    }
  }

  /** The whole run: behind the downloads and waits that stopped come those that were still open, in the order
      of their starts, each marked as cut off. */
  lemma FinishedOthers(opts: Options, evs: seq<Stamped>, ids: seq<Id>, end: Stamp)
    requires DrainOrder(RunFrom(opts, EMPTY, evs).active, ids)
    ensures OpenInOrder(evs, ids)
    ensures Others(Finish(RunFrom(opts, EMPTY, evs), ids, end).emitted) ==
      StoppedOthers(opts, evs) + Others(CutOffs(opts, evs, ids, end))
  {
    var s := RunFrom(opts, EMPTY, evs);
    RunAgrees(opts, evs);
    DrainIsInOrder(opts, s, evs, ids);
    EmittedOthers(opts, evs);
    assert forall id | id in ids :: id in Elems(ids);
    var h, a := HeldActs(s.held), AbortedActs(s.active, ids, end);
    forall x | x in h ensures x.kind.Build? {
      var i :| 0 <= i < |h| && h[i] == x;
      assert s.held[i] in s.held;
    }
    NoOthers(h);
    OthersConcat(h, a);
    OthersConcat(s.emitted, h + a);
    assert [] + Others(a) == Others(a);
    SameAborts(opts, s, evs, ids, end);
  }

  lemma SameAborts(opts: Options, s: State, evs: seq<Stamped>, ids: seq<Id>, end: Stamp)
    requires Agrees(opts, s, evs) && OpenInOrder(evs, ids) && forall id | id in ids :: id in s.active
    ensures AbortedActs(s.active, ids, end) == CutOffs(opts, evs, ids, end)
  {
    forall i | 0 <= i < |ids| ensures AbortedActs(s.active, ids, end)[i] == CutOffs(opts, evs, ids, end)[i] {
      assert AgreesOn(opts, s, evs, ids[i]);
    }
  }

  // ---------------------------------------------------------------- builds

  ghost predicate Mentions(s: string, t: string) {
    exists i: nat :: ResultLine.MatchAt(s, t, i)
  }

  lemma MatchLater(s: string, t: string, i: nat)
    requires s != []
    ensures ResultLine.MatchAt(s[1..], t, i) <==> ResultLine.MatchAt(s, t, i + 1)
  {
    if i + 1 + |t| <= |s| { assert s[i + 1..i + 1 + |t|] == s[1..][i..i + |t|]; }
  }

  lemma MatchAtStart(s: string, t: string)
    ensures ResultLine.MatchAt(s, t, 0) <==> t <= s
  {
  }

  lemma {:induction false} ContainsIffMentions(s: string, t: string)
    ensures Contains(s, t) <==> Mentions(s, t)
  {
    MatchAtStart(s, t);
    if s != [] && !(t <= s) {
      ContainsIffMentions(s[1..], t);
      if i: nat :| ResultLine.MatchAt(s[1..], t, i) { MatchLater(s, t, i); }
      if i: nat :| ResultLine.MatchAt(s, t, i) { MatchLater(s, t, i - 1); }
    }
  }

  /** The record of a build that a message blames. */
  ghost function Blamed(a: Activity, text: Text): Activity
    requires NamesDrv(text)
  {
    match text
    case CannotBuild(_, cause) =>
      var reason := if cause.Some? then cause.value else "build failed";
      var byOthers := Mentions(reason, "dependency failed") || Mentions(reason, "dependencies failed");
      a.(failed := true, reason := reason, errorType := if byOthers then DependencyFailed else BuildError,
         placeholder := false)
    case HashDiffers(_, isPlaceholder) =>
      a.(failed := true, reason := "hash mismatch in fixed-output derivation", errorType := HashMismatch,
         placeholder := isPlaceholder)
  }

  lemma BlamedIsMarked(a: Activity, text: Text)
    requires NamesDrv(text)
    ensures MarkFailed(a, FailureOf(text)) == Blamed(a, text)
  {
    if text.CannotBuild? {
      ContainsIffMentions(Reason(text.cause), "dependency failed");
      ContainsIffMentions(Reason(text.cause), "dependencies failed");
    }
  }

  /** The first event of the run that blames derivation d. */
  function NamedAt(evs: seq<Stamped>, d: string): (k: Option<nat>)
    ensures k.Some? ==> k.value < |evs| && NamesDerivation(evs[k.value].event, d)
    ensures forall j | 0 <= j < |evs| && (k.Some? ==> j < k.value) :: !NamesDerivation(evs[j].event, d)
  {
    if evs == [] then None
    else
      var init := evs[..|evs| - 1];
      if NamedAt(init, d).Some? then NamedAt(init, d)
      else if NamesDerivation(evs[|evs| - 1].event, d) then Some(|init|) else None
  }

  predicate StopsBuild(init: seq<Stamped>, e: Event, d: string) {
    && e.Stop? && OpenedBy(init, e.id).Some?
    && OpenedBy(init, e.id).value.event.typ == 105 && OpenedBy(init, e.id).value.event.path == d
  }

  /** The records of the builds of d that stopped. */
  function StoppedBuilds(opts: Options, evs: seq<Stamped>, d: string): seq<Activity> {
    if evs == [] then []
    else
      var init, e := evs[..|evs| - 1], evs[|evs| - 1];
      StoppedBuilds(opts, init, d) +
        if StopsBuild(init, e.event, d) then [Record(opts, init, e.event.id).(end := e.at)] else []
  }

  ghost predicate Building(evs: seq<Stamped>, d: string) {
    exists x :: OpenedBy(evs, x).Some? && OpenedBy(evs, x).value.event.typ == 105
                && OpenedBy(evs, x).value.event.path == d
  }

  ghost function AllBlamed(acts: seq<Activity>, text: Text): seq<Activity>
    requires NamesDrv(text)
  {
    seq(|acts|, i requires 0 <= i < |acts| => Blamed(acts[i], text))
  }

  /** The record of a derivation that is blamed and was never started. */
  function NeverStarted(opts: Options, d: string, at: Stamp): Activity {
    Activity(Build, opts.nameOf(d), d, "", at, at, false, NoError, "", false, true, 0, false, false)
  }

  /** What the first message that blames d releases. */
  ghost function Released(opts: Options, before: seq<Stamped>, naming: Stamped, d: string): seq<Activity>
    requires NamesDerivation(naming.event, d)
  {
    var stopped, text := StoppedBuilds(opts, before, d), naming.event.message.text;
    if stopped != [] then [Blamed(stopped[0], text)]
    else if Building(before, d) then [] else [Blamed(NeverStarted(opts, d, naming.at), text)]
  }

  lemma {:induction false} StoppedBuildsGrow(opts: Options, evs: seq<Stamped>, k: nat, d: string)
    requires k <= |evs|
    ensures StoppedBuilds(opts, evs[..k], d) <= StoppedBuilds(opts, evs, d)
  {
    if k == |evs| {
      assert evs[..k] == evs;
    } else {
      StoppedBuildsGrow(opts, evs[..|evs| - 1], k, d);
      assert evs[..|evs| - 1][..k] == evs[..k];
    }
  }

  /** The builds of d that are waiting for the end of the run or for a late message. */
  ghost function Waiting(opts: Options, evs: seq<Stamped>, d: string): seq<Activity> {
    match NamedAt(evs, d)
    case None => StoppedBuilds(opts, evs, d)
    case Some(k) =>
      var stopped := StoppedBuilds(opts, evs[..k], d);
      if stopped == [] then [] else stopped[1..]
  }

  /** The builds of d that have been reported, all of them failed. */
  ghost function Reported(opts: Options, evs: seq<Stamped>, d: string): seq<Activity> {
    match NamedAt(evs, d)
    case None => []
    case Some(k) =>
      StoppedBuildsGrow(opts, evs, k, d);
      Released(opts, evs[..k], evs[k], d)
      + AllBlamed(StoppedBuilds(opts, evs, d)[|StoppedBuilds(opts, evs[..k], d)|..], evs[k].event.message.text)
  }

  ghost predicate ReportsBuilds(opts: Options, s: State, evs: seq<Stamped>, d: string) {
    && (d in s.failed <==> NamedAt(evs, d).Some?)
    && (d in s.failed ==> s.failed[d] == FailureOf(evs[NamedAt(evs, d).value].event.message.text))
    && HeldBuilds(s, d) == Waiting(opts, evs, d)
    && BuildsOf(s.emitted, d) == Reported(opts, evs, d)
  }

  lemma PrefixStays(evs: seq<Stamped>, e: Stamped, k: nat)
    requires k <= |evs|
    ensures (evs + [e])[..k] == evs[..k] && (k < |evs| ==> (evs + [e])[k] == evs[k])
  {
  }

  lemma BuildsNext(opts: Options, evs: seq<Stamped>, e: Stamped, d: string)
    ensures NamedAt(evs + [e], d) ==
      if NamedAt(evs, d).Some? then NamedAt(evs, d)
      else if NamesDerivation(e.event, d) then Some(|evs|) else None
    ensures StoppedBuilds(opts, evs + [e], d) == StoppedBuilds(opts, evs, d) +
      if StopsBuild(evs, e.event, d) then [Record(opts, evs, e.event.id).(end := e.at)] else []
  {
    assert (evs + [e])[..|evs|] == evs;
  }

  lemma AllBlamedSnoc(acts: seq<Activity>, a: Activity, text: Text)
    requires NamesDrv(text)
    ensures AllBlamed(acts + [a], text) == AllBlamed(acts, text) + [Blamed(a, text)]
  {
  }

  /** The first message that blames d releases the first build that waits. */
  lemma NamingReports(opts: Options, evs: seq<Stamped>, e: Stamped, d: string)
    requires NamesDerivation(e.event, d) && NamedAt(evs, d).None?
    ensures var w := Waiting(opts, evs, d); Waiting(opts, evs + [e], d) == if w == [] then [] else w[1..]
    ensures Reported(opts, evs + [e], d) == Released(opts, evs, e, d)
  {
    BuildsNext(opts, evs, e, d);
    PrefixStays(evs, e, |evs|);
    assert evs[..|evs|] == evs && (evs + [e])[|evs|] == e;
    assert StoppedBuilds(opts, evs, d) + [] == StoppedBuilds(opts, evs, d);
    NothingSince(opts, evs + [e], evs, |evs|, d);
  }

  lemma NothingSince(opts: Options, evs: seq<Stamped>, before: seq<Stamped>, k: nat, d: string)
    requires NamedAt(evs, d) == Some(k) && before == evs[..k]
    requires StoppedBuilds(opts, evs, d) == StoppedBuilds(opts, before, d)
    ensures Reported(opts, evs, d) == Released(opts, before, evs[k], d)
  {
    var stopped := StoppedBuilds(opts, evs, d);
    assert stopped[|stopped|..] == [];
    assert AllBlamed([], evs[k].event.message.text) == [];
    assert Released(opts, before, evs[k], d) + [] == Released(opts, before, evs[k], d);
  }

  lemma StopReports(opts: Options, evs: seq<Stamped>, e: Stamped, d: string)
    requires StopsBuild(evs, e.event, d)
    ensures var a := Record(opts, evs, e.event.id).(end := e.at);
      match NamedAt(evs, d)
      case None => Waiting(opts, evs + [e], d) == Waiting(opts, evs, d) + [a]
                   && Reported(opts, evs + [e], d) == Reported(opts, evs, d)
      case Some(k) => Waiting(opts, evs + [e], d) == Waiting(opts, evs, d)
                      && Reported(opts, evs + [e], d) ==
                           Reported(opts, evs, d) + [Blamed(a, evs[k].event.message.text)]
  {
    BuildsNext(opts, evs, e, d);
    if NamedAt(evs, d).Some? {
      var a, k := Record(opts, evs, e.event.id).(end := e.at), NamedAt(evs, d).value;
      var text := evs[k].event.message.text;
      var stopped, n := StoppedBuilds(opts, evs, d), |StoppedBuilds(opts, evs[..k], d)|;
      PrefixStays(evs, e, k);
      StoppedBuildsGrow(opts, evs, k, d);
      assert (stopped + [a])[n..] == stopped[n..] + [a];
      AllBlamedSnoc(stopped[n..], a, text);
      ConcatAssociative(Released(opts, evs[..k], evs[k], d), AllBlamed(stopped[n..], text), [Blamed(a, text)]);
    }
  }

  lemma OtherReports(opts: Options, evs: seq<Stamped>, e: Stamped, d: string)
    requires !StopsBuild(evs, e.event, d) && (NamesDerivation(e.event, d) ==> NamedAt(evs, d).Some?)
    ensures Waiting(opts, evs + [e], d) == Waiting(opts, evs, d)
    ensures Reported(opts, evs + [e], d) == Reported(opts, evs, d)
  {
    BuildsNext(opts, evs, e, d);
    var stopped := StoppedBuilds(opts, evs, d);
    assert stopped + [] == stopped;
    if NamedAt(evs, d).Some? { PrefixStays(evs, e, NamedAt(evs, d).value); }
  }

  // The machine's side of the same three cases.

  lemma HeldAround(held: seq<Open>, i: nat, d: string)
    requires i < |held|
    ensures var a, x, b := BuildsOf(HeldActs(held[..i]), d), held[i].act, BuildsOf(HeldActs(held[i + 1..]), d);
      && BuildsOf(HeldActs(held), d) == a + (if IsBuildOf(x, d) then [x] else []) + b
      && BuildsOf(HeldActs(Without(held, i)), d) == a + b
  {
    var a, x, b := HeldActs(held[..i]), held[i].act, HeldActs(held[i + 1..]);
    assert HeldActs(held) == a + [x] + b;
    assert HeldActs(Without(held, i)) == a + b;
    BuildsConcat(a + [x], b, d);
    BuildsConcat(a, [x], d);
    BuildsConcat(a, b, d);
    BuildsOne(x, d);
  }

  lemma {:induction false} NoneAmong(acts: seq<Activity>, d: string)
    requires forall j | 0 <= j < |acts| :: acts[j].path != d
    ensures BuildsOf(acts, d) == []
  {
    if acts != [] { NoneAmong(acts[1..], d); }
  }

  lemma HeldSplit(held: seq<Open>, d: string)
    requires forall o | o in held :: o.act.kind.Build?
    ensures var i, all := FindHeld(held, d), BuildsOf(HeldActs(held), d);
      if i < |held| then all == [held[i].act] + BuildsOf(HeldActs(Without(held, i)), d) else all == []
  {
    var i := FindHeld(held, d);
    NoneAmong(HeldActs(held[..i]), d);
    if i < |held| {
      assert held[i] in held;
      HeldAround(held, i, d);
      EmptyFront([held[i].act], BuildsOf(HeldActs(held[i + 1..]), d));
    } else {
      assert held[..i] == held;
    }
  }

  lemma EmptyFront(x: seq<Activity>, b: seq<Activity>)
    ensures [] + x + b == x + ([] + b)
  {
  }

  lemma HeldOthers(held: seq<Open>, i: nat, d: string)
    requires i < |held| ==> held[i].act.path != d
    ensures BuildsOf(HeldActs(Without(held, i)), d) == BuildsOf(HeldActs(held), d)
  {
    if i < |held| {
      HeldAround(held, i, d);
      assert BuildsOf(HeldActs(held[..i]), d) + [] == BuildsOf(HeldActs(held[..i]), d);
    }
  }

  lemma StopKeepsReport(opts: Options, s: State, evs: seq<Stamped>, id: Id, at: Stamp, d: string)
    requires AgreesOn(opts, s, evs, id) && ReportsBuilds(opts, s, evs, d)
    ensures ReportsBuilds(opts, OnStop(opts, s, id, at), evs + [Stamped(Stop(id), at)], d)
  {
    var e := Stamped(Stop(id), at);
    BuildsNext(opts, evs, e, d);
    if NamedAt(evs, d).Some? { PrefixStays(evs, e, NamedAt(evs, d).value); }
    if StopsBuild(evs, e.event, d) {
      StopReports(opts, evs, e, d);
      OwnStop(opts, s, evs, id, at, d);
    } else {
      OtherReports(opts, evs, e, d);
      OtherStop(opts, s, evs, id, at, d);
    }
  }

  lemma OwnStop(opts: Options, s: State, evs: seq<Stamped>, id: Id, at: Stamp, d: string)
    requires AgreesOn(opts, s, evs, id) && ReportsBuilds(opts, s, evs, d) && StopsBuild(evs, Stop(id), d)
    ensures var s', a := OnStop(opts, s, id, at), Record(opts, evs, id).(end := at);
      match NamedAt(evs, d)
      case None => HeldBuilds(s', d) == HeldBuilds(s, d) + [a] && s'.emitted == s.emitted
      case Some(k) => s'.held == s.held
                      && BuildsOf(s'.emitted, d) == BuildsOf(s.emitted, d) + [Blamed(a, evs[k].event.message.text)]
  {
    if d in s.failed {
      var a := Ended(s.active, id, at).act;
      BlamedIsMarked(a, evs[NamedAt(evs, d).value].event.message.text);
      EmitBuilds(s.emitted, MarkFailed(a, s.failed[d]), d);
    } else {
      HeldBuildsAppend(s.held, Ended(s.active, id, at), d);
      assert s.emitted + [] == s.emitted;
    }
  }

  lemma OtherStop(opts: Options, s: State, evs: seq<Stamped>, id: Id, at: Stamp, d: string)
    requires AgreesOn(opts, s, evs, id) && !StopsBuild(evs, Stop(id), d)
    ensures var s' := OnStop(opts, s, id, at);
      HeldBuilds(s', d) == HeldBuilds(s, d) && BuildsOf(s'.emitted, d) == BuildsOf(s.emitted, d)
  {
    var emits := StopEmits(opts, s.active, s.failed, id, at);
    if emits != [] {
      assert emits == [emits[0]];
      EmitBuilds(s.emitted, emits[0], d);
    } else {
      assert s.emitted + [] == s.emitted;
    }
    if Holds(s.active, s.failed, id) { HeldBuildsAppend(s.held, Ended(s.active, id, at), d); }
  }

  lemma BuildingAgrees(opts: Options, s: State, evs: seq<Stamped>, d: string)
    requires Agrees(opts, s, evs)
    ensures BuildingNow(s.active, d) <==> Building(evs, d)
  {
    if BuildingNow(s.active, d) {
      var id :| id in s.active && s.active[id].act.kind.Build? && s.active[id].act.path == d;
      assert AgreesOn(opts, s, evs, id);
    }
    if Building(evs, d) {
      var x :| OpenedBy(evs, x).Some? && OpenedBy(evs, x).value.event.typ == 105
               && OpenedBy(evs, x).value.event.path == d;
      assert AgreesOn(opts, s, evs, x);
    }
  }

  lemma NamingKeepsReport(opts: Options, s: State, evs: seq<Stamped>, m: Message, at: Stamp)
    requires Agrees(opts, s, evs) && HoldsBuilds(s) && Blames(m) && m.text.drv !in s.failed
    requires ReportsBuilds(opts, s, evs, m.text.drv)
    ensures ReportsBuilds(opts, BuildFailed(opts, s, m.text.drv, FailureOf(m.text), at),
                          evs + [Stamped(Msg(m), at)], m.text.drv)
  {
    var e, d, f := Stamped(Msg(m), at), m.text.drv, FailureOf(m.text);
    BuildsNext(opts, evs, e, d);
    PrefixStays(evs, e, |evs|);
    NamingReports(opts, evs, e, d);
    BuildingAgrees(opts, s, evs, d);
    HeldSplit(s.held, d);
    NamingEmits(opts, s, evs, e, d);
  }

  lemma NamingEmits(opts: Options, s: State, evs: seq<Stamped>, e: Stamped, d: string)
    requires HoldsBuilds(s) && NamesDerivation(e.event, d) && NamedAt(evs, d).None?
    requires HeldBuilds(s, d) == Waiting(opts, evs, d) && (BuildingNow(s.active, d) <==> Building(evs, d))
    requires BuildsOf(s.emitted, d) == []
    ensures BuildsOf(s.emitted + FailEmits(opts, s.active, s.held, d, FailureOf(e.event.message.text), e.at), d) ==
      Released(opts, evs, e, d)
  {
    var text := e.event.message.text;
    HeldSplit(s.held, d);
    var i := FindHeld(s.held, d);
    if i < |s.held| {
      assert s.held[i] in s.held;
      BlamedIsMarked(s.held[i].act, text);
      EmitBuilds(s.emitted, MarkFailed(s.held[i].act, FailureOf(text)), d);
    } else if BuildingNow(s.active, d) {
      assert s.emitted + [] == s.emitted;
    } else {
      BlamedIsMarked(NeverStarted(opts, d, e.at), text);
      EmitBuilds(s.emitted, InstantFailure(opts, d, FailureOf(text), e.at), d);
    }
  }

  lemma MsgKeepsReport(opts: Options, s: State, evs: seq<Stamped>, m: Message, at: Stamp, d: string)
    requires Agrees(opts, s, evs) && HoldsBuilds(s) && ReportsBuilds(opts, s, evs, d)
    ensures ReportsBuilds(opts, OnMsg(opts, s, m, at), evs + [Stamped(Msg(m), at)], d)
  {
    var e, s1 := Stamped(Msg(m), at), s.(sum := MsgSum(s.sum, m));
    forall x ensures AgreesOn(opts, s1, evs, x) { assert AgreesOn(opts, s, evs, x); }
    if Blames(m) && m.text.drv == d && d !in s.failed {
      NamingKeepsReport(opts, s1, evs, m, at);
    } else {
      BuildsNext(opts, evs, e, d);
      if NamedAt(evs, d).Some? { PrefixStays(evs, e, NamedAt(evs, d).value); }
      OtherReports(opts, evs, e, d);
      if Blames(m) && m.text.drv != d {
        FailOfOther(opts, s.active, s.held, s.emitted, m.text.drv, FailureOf(m.text), at, d);
        HeldOthers(s.held, FindHeld(s.held, m.text.drv), d);
      }
    }
  }

  lemma QuietKeepsReport(opts: Options, s: State, evs: seq<Stamped>, e: Stamped, d: string)
    requires ReportsBuilds(opts, s, evs, d) && (e.event.Start? || e.event.Result?)
    ensures ReportsBuilds(opts, Step(opts, s, e.event, e.at), evs + [e], d)
  {
    BuildsNext(opts, evs, e, d);
    if NamedAt(evs, d).Some? { PrefixStays(evs, e, NamedAt(evs, d).value); }
    OtherReports(opts, evs, e, d);
  }

  /** At every point of a run, for each derivation: no build of it has been reported until a message blames it.
      The first such message releases the first of its builds that stopped before, or if none did and none is
      running, a record of its own; each build of it that stops afterwards is reported at once. All of them
      carry the blame of that first message, and the other builds that stopped are kept. */
  lemma {:induction false} RunReportsBuilds(opts: Options, evs: seq<Stamped>, d: string)
    ensures ReportsBuilds(opts, RunFrom(opts, EMPTY, evs), evs, d)
  {
    if evs == [] {
      assert HeldActs(EMPTY.held) == [];
    } else {
      var init, e := evs[..|evs| - 1], evs[|evs| - 1];
      var s := RunFrom(opts, EMPTY, init);
      SplitEvents(evs);
      RunNext(opts, init, e);
      RunReportsBuilds(opts, init, d);
      RunAgrees(opts, init);
      EmittedOthers(opts, init);
      match e.event
      case Stop(id) => StopKeepsReport(opts, s, init, id, e.at, d);
      case Msg(m) => MsgKeepsReport(opts, s, init, m, e.at, d);
      case _ => QuietKeepsReport(opts, s, init, e, d);
    }
  }

  /** The whole run: behind the reported builds of d come those that were kept, which succeeded, and behind them
      those that were still running, in the order of their starts, each marked as cut off. */
  lemma FinishedBuilds(opts: Options, evs: seq<Stamped>, ids: seq<Id>, end: Stamp, d: string)
    requires DrainOrder(RunFrom(opts, EMPTY, evs).active, ids)
    ensures OpenInOrder(evs, ids)
    ensures BuildsOf(Finish(RunFrom(opts, EMPTY, evs), ids, end).emitted, d) ==
      Reported(opts, evs, d) + (Waiting(opts, evs, d) + BuildsOf(CutOffs(opts, evs, ids, end), d))
  {
    var s := RunFrom(opts, EMPTY, evs);
    RunAgrees(opts, evs);
    DrainIsInOrder(opts, s, evs, ids);
    RunReportsBuilds(opts, evs, d);
    assert forall id | id in ids :: id in Elems(ids);
    var h, a := HeldActs(s.held), AbortedActs(s.active, ids, end);
    BuildsConcat(h, a, d);
    BuildsConcat(s.emitted, h + a, d);
    SameAborts(opts, s, evs, ids, end);
  }

  // ---------------------------------------------------------------- the summary

  function SumOf(f: Event -> nat, evs: seq<Stamped>): nat {
    if evs == [] then 0 else SumOf(f, evs[..|evs| - 1]) + f(evs[|evs| - 1].event)
  }

  /** The first event with a property. */
  function FirstOf(p: Event -> bool, evs: seq<Stamped>): (r: Option<Stamped>)
    ensures r.None? ==> forall k | 0 <= k < |evs| :: !p(evs[k].event)
    ensures r.Some? ==> exists k :: 0 <= k < |evs| && evs[k] == r.value && p(evs[k].event)
                                    && forall j | 0 <= j < k :: !p(evs[j].event)
  {
    if evs == [] then None
    else
      var init := evs[..|evs| - 1];
      if FirstOf(p, init).Some? then FirstOf(p, init)
      else if p(evs[|evs| - 1].event) then Some(evs[|evs| - 1]) else None
  }

  function PlannedBuilds(e: Event): nat {
    if e.Msg? && e.message.PlanBuilds? then e.message.count else 0
  }

  function PlannedFetches(e: Event): nat {
    if e.Msg? && e.message.PlanFetches? then e.message.count else 0
  }

  function BusyDatabase(e: Event): nat {
    if e == Msg(DatabaseBusy) then 1 else 0
  }

  function BusyEvalCache(e: Event): nat {
    if e == Msg(EvalCacheBusy) then 1 else 0
  }

  predicate Works(e: Event) {
    e.Start? && e.typ != 0
  }

  predicate TellsError(e: Event) {
    e.Msg? && e.message.LevelZero? && e.message.isError && e.message.cleaned != ""
  }

  /** The derivations that messages blame, each where it is blamed first. */
  function BlamedInOrder(evs: seq<Stamped>): seq<string> {
    if evs == [] then []
    else
      var init, e := evs[..|evs| - 1], evs[|evs| - 1].event;
      BlamedInOrder(init) + if Accuses(e) && NamedAt(init, e.message.text.drv).None? then [e.message.text.drv] else []
  }

  predicate Accuses(e: Event) {
    e.Msg? && e.message.LevelZero? && (e.message.text.CannotBuild? || e.message.text.HashDiffers?)
  }

  /** What kind of error an event reports that is not a repetition. */
  ghost function ErrorKind(init: seq<Stamped>, e: Event): Option<ErrorType> {
    if Accuses(e) then
      if NamedAt(init, e.message.text.drv).Some? then None
      else Some(Blamed(NeverStarted(Options(0, n => n), "", 0), e.message.text).errorType)
    else if !(e.Msg? && e.message.LevelZero? && e.message.isError) then None
    else
      match e.message.text
      case Interrupted => Some(SignalError)
      case MentionsDerivation => Some(OtherError)
      case _ => Some(EvalError)
  }

  ghost function ErrorKinds(evs: seq<Stamped>): set<ErrorType> {
    if evs == [] then {}
    else
      var k := ErrorKind(evs[..|evs| - 1], evs[|evs| - 1].event);
      ErrorKinds(evs[..|evs| - 1]) + if k.Some? then {k.value} else {}
  }

  /** Progress that is kept: of the totals, of an open download, or of a copy. */
  predicate IsKept(init: seq<Stamped>, e: Event) {
    && e.Result? && e.typ == 105 && e.fields.Some?
    && (TotalsOf(init, e.id).Some? || OpenDownload(init, e.id) || CopyOf(init, e.id).Some?)
  }

  function KeptProgress(evs: seq<Stamped>): nat {
    if evs == [] then 0
    else KeptProgress(evs[..|evs| - 1]) + if IsKept(evs[..|evs| - 1], evs[|evs| - 1].event) then 1 else 0
  }

  function WaitsAmong(acts: seq<Activity>): nat {
    if acts == [] then 0 else WaitsAmong(acts[..|acts| - 1]) + if acts[|acts| - 1].kind.Wait? then 1 else 0
  }

  ghost predicate FirstFive(opts: Options, names: seq<string>, drvs: seq<string>) {
    && |names| == (if |drvs| < 5 then |drvs| else 5)
    && forall i | 0 <= i < |names| :: names[i] == opts.nameOf(drvs[i])
  }

  ghost predicate Counts(sum: Summary, evs: seq<Stamped>) {
    && sum.planBuild == SumOf(PlannedBuilds, evs) && sum.planFetch == SumOf(PlannedFetches, evs)
    && sum.dbBusy == SumOf(BusyDatabase, evs) && sum.evalCacheBusy == SumOf(BusyEvalCache, evs)
    && sum.folded == KeptProgress(evs)
  }

  ghost predicate Firsts(sum: Summary, evs: seq<Stamped>) {
    var active, error := FirstOf(Works, evs), FirstOf(TellsError, evs);
    && sum.firstActive == (if active.Some? then Some(active.value.at) else None)
    && sum.firstError ==
         (if error.Some? && TellsError(error.value.event) then error.value.event.message.cleaned else "")
  }

  ghost predicate Errors(opts: Options, sum: Summary, evs: seq<Stamped>) {
    FirstFive(opts, sum.failedDrvs, BlamedInOrder(evs)) && sum.kinds == ErrorKinds(evs)
  }

  lemma SumNext(f: Event -> nat, evs: seq<Stamped>, e: Stamped)
    ensures SumOf(f, evs + [e]) == SumOf(f, evs) + f(e.event)
  {
    assert (evs + [e])[..|evs|] == evs;
  }

  lemma KeptNext(evs: seq<Stamped>, e: Stamped)
    ensures KeptProgress(evs + [e]) == KeptProgress(evs) + if IsKept(evs, e.event) then 1 else 0
  {
    assert (evs + [e])[..|evs|] == evs;
  }

  lemma FirstNext(p: Event -> bool, evs: seq<Stamped>, e: Stamped)
    ensures FirstOf(p, evs + [e]) ==
      if FirstOf(p, evs).Some? then FirstOf(p, evs) else if p(e.event) then Some(e) else None
  {
    assert (evs + [e])[..|evs|] == evs;
  }

  lemma ErrorsNext(evs: seq<Stamped>, e: Stamped)
    ensures BlamedInOrder(evs + [e]) == BlamedInOrder(evs) +
      if Accuses(e.event) && NamedAt(evs, e.event.message.text.drv).None? then [e.event.message.text.drv] else []
    ensures ErrorKinds(evs + [e]) ==
      ErrorKinds(evs) + if ErrorKind(evs, e.event).Some? then {ErrorKind(evs, e.event).value} else {}
  {
    assert (evs + [e])[..|evs|] == evs;
  }

  // What one event does to the parts of the summary.
  lemma SumOfStart(opts: Options, s: State, e: Stamped)
    requires e.event.Start?
    ensures Step(opts, s, e.event, e.at).sum ==
      if Works(e.event) && s.sum.firstActive.None? then s.sum.(firstActive := Some(e.at)) else s.sum
  {
  }

  lemma SumOfStop(opts: Options, s: State, e: Stamped)
    requires e.event.Stop?
    ensures Step(opts, s, e.event, e.at).sum == s.sum.(waits := Step(opts, s, e.event, e.at).sum.waits)
  {
  }

  lemma SumOfResult(opts: Options, s: State, evs: seq<Stamped>, e: Stamped)
    requires e.event.Result? && AgreesOn(opts, s, evs, e.event.id)
    ensures Step(opts, s, e.event, e.at).sum ==
      if IsKept(evs, e.event) then s.sum.(folded := s.sum.folded + 1) else s.sum
  {
  }

  lemma SumOfMsg(opts: Options, s: State, e: Stamped)
    requires e.event.Msg?
    ensures var sum := Step(opts, s, e.event, e.at).sum;
      sum == MsgSum(s.sum, e.event.message).(kinds := sum.kinds, failedDrvs := sum.failedDrvs)
  {
  }

  lemma MsgCounts(sum: Summary, m: Message)
    ensures var t := MsgSum(sum, m);
      t == sum.(planBuild := sum.planBuild + PlannedBuilds(Msg(m)), planFetch := sum.planFetch + PlannedFetches(Msg(m)),
                dbBusy := sum.dbBusy + BusyDatabase(Msg(m)), evalCacheBusy := sum.evalCacheBusy + BusyEvalCache(Msg(m)),
                kinds := t.kinds,
                firstError := if sum.firstError == "" && TellsError(Msg(m)) then m.cleaned else sum.firstError)
  {
  }

  lemma StepCounts(opts: Options, s: State, evs: seq<Stamped>, e: Stamped)
    requires AgreesOn(opts, s, evs, if e.event.Result? then e.event.id else 0) && Counts(s.sum, evs)
    ensures Counts(Step(opts, s, e.event, e.at).sum, evs + [e])
  {
    SumNext(PlannedBuilds, evs, e);
    SumNext(PlannedFetches, evs, e);
    SumNext(BusyDatabase, evs, e);
    SumNext(BusyEvalCache, evs, e);
    KeptNext(evs, e);
    match e.event
    case Start(_, _, _, _, _) => SumOfStart(opts, s, e);
    case Stop(_) => SumOfStop(opts, s, e);
    case Result(_, _, _) => SumOfResult(opts, s, evs, e);
    case Msg(m) =>
      SumOfMsg(opts, s, e);
      MsgCounts(s.sum, m);
  }

  lemma StepFirsts(opts: Options, s: State, evs: seq<Stamped>, e: Stamped)
    requires AgreesOn(opts, s, evs, if e.event.Result? then e.event.id else 0) && Firsts(s.sum, evs)
    ensures Firsts(Step(opts, s, e.event, e.at).sum, evs + [e])
  {
    FirstNext(Works, evs, e);
    FirstNext(TellsError, evs, e);
    match e.event
    case Start(_, _, _, _, _) => SumOfStart(opts, s, e);
    case Stop(_) => SumOfStop(opts, s, e);
    case Result(_, _, _) => SumOfResult(opts, s, evs, e);
    case Msg(m) =>
      SumOfMsg(opts, s, e);
      MsgCounts(s.sum, m);
  }

  lemma StepErrors(opts: Options, s: State, evs: seq<Stamped>, e: Stamped)
    requires Errors(opts, s.sum, evs)
    requires AgreesOn(opts, s, evs, if e.event.Result? then e.event.id else 0)
    requires forall d :: d in s.failed <==> NamedAt(evs, d).Some?
    ensures Errors(opts, Step(opts, s, e.event, e.at).sum, evs + [e])
  {
    ErrorsNext(evs, e);
    match e.event
    case Start(_, _, _, _, _) => SumOfStart(opts, s, e);
    case Stop(_) => SumOfStop(opts, s, e);
    case Result(_, _, _) => SumOfResult(opts, s, evs, e);
    case Msg(m) => MsgErrors(opts, s, evs, m, e.at);
  }

  lemma MsgErrors(opts: Options, s: State, evs: seq<Stamped>, m: Message, at: Stamp)
    requires Errors(opts, s.sum, evs)
    requires forall d :: d in s.failed <==> NamedAt(evs, d).Some?
    ensures Errors(opts, OnMsg(opts, s, m, at).sum, evs + [Stamped(Msg(m), at)])
  {
    ErrorsNext(evs, Stamped(Msg(m), at));
    NotedErrors(s.sum, evs, m);
    if Blames(m) {
      BlamedIsMarked(NeverStarted(Options(0, n => n), "", 0), m.text);
      if m.text.drv !in s.failed { BlameErrors(opts, MsgSum(s.sum, m), evs, m.text); }
    }
  }

  lemma NotedErrors(sum: Summary, evs: seq<Stamped>, m: Message)
    ensures Accuses(Msg(m)) <==> Blames(m)
    ensures MsgSum(sum, m).failedDrvs == sum.failedDrvs
    ensures var k := ErrorKind(evs, Msg(m));
      MsgSum(sum, m).kinds == sum.kinds + if !Blames(m) && k.Some? then {k.value} else {}
  {
    assert sum.kinds + {} == sum.kinds;
  }

  lemma BlameErrors(opts: Options, sum: Summary, evs: seq<Stamped>, text: Text)
    requires Errors(opts, sum, evs) && NamesDrv(text)
    ensures var after := BlameSum(sum, opts.nameOf(text.drv), FailureOf(text));
      && FirstFive(opts, after.failedDrvs, BlamedInOrder(evs) + [text.drv])
      && after.kinds == sum.kinds + {FailureOf(text).errorType}
  {
  }

  lemma {:induction false} WaitsConcat(a: seq<Activity>, b: seq<Activity>)
    ensures WaitsAmong(a + b) == WaitsAmong(a) + WaitCount(b)
    decreases b
  {
    if b == [] {
      assert a + b == a;
    } else {
      assert a + b == (a + [b[0]]) + b[1..];
      assert (a + [b[0]])[..|a|] == a;
      WaitsConcat(a + [b[0]], b[1..]);
    }
  }

  lemma StepWaits(opts: Options, s: State, e: Stamped)
    requires s.sum.waits == WaitsAmong(s.emitted) && HoldsBuilds(s)
    ensures Step(opts, s, e.event, e.at).sum.waits == WaitsAmong(Step(opts, s, e.event, e.at).emitted)
  {
    match e.event
    case Start(_, _, _, _, _) =>
    case Stop(id) => WaitsConcat(s.emitted, StopEmits(opts, s.active, s.failed, id, e.at));
    case Msg(m) => MsgWaits(opts, s, m, e.at);
    case Result(_, _, _) =>
  }

  lemma MsgWaits(opts: Options, s: State, m: Message, at: Stamp)
    requires s.sum.waits == WaitsAmong(s.emitted) && HoldsBuilds(s)
    ensures OnMsg(opts, s, m, at).sum.waits == WaitsAmong(OnMsg(opts, s, m, at).emitted)
  {
    MsgCounts(s.sum, m);
    if Blames(m) && m.text.drv !in s.failed { BlameWaits(opts, s, m, at); }
  }

  lemma BlameWaits(opts: Options, s: State, m: Message, at: Stamp)
    requires HoldsBuilds(s) && Blames(m)
    ensures WaitsAmong(s.emitted + FailEmits(opts, s.active, s.held, m.text.drv, FailureOf(m.text), at)) ==
      WaitsAmong(s.emitted)
  {
    var emits := FailEmits(opts, s.active, s.held, m.text.drv, FailureOf(m.text), at);
    WaitsConcat(s.emitted, emits);
    var i := FindHeld(s.held, m.text.drv);
    if i < |s.held| { assert s.held[i] in s.held; }
    if emits != [] { assert emits[1..] == [] && emits[0].kind.Build?; }
  }

  /** The summary at every point of a run: the counts of its events, the first error that says something, the
      first activity, the kinds of the errors, the first five derivations blamed, and the emitted waits. */
  lemma {:induction false} RunSummary(opts: Options, evs: seq<Stamped>)
    ensures var s := RunFrom(opts, EMPTY, evs);
      && Counts(s.sum, evs) && Firsts(s.sum, evs) && Errors(opts, s.sum, evs)
      && s.sum.waits == WaitsAmong(s.emitted)
  {
    if evs != [] {
      var init, e := evs[..|evs| - 1], evs[|evs| - 1];
      var s := RunFrom(opts, EMPTY, init);
      SplitEvents(evs);
      RunNext(opts, init, e);
      RunSummary(opts, init);
      RunAgrees(opts, init);
      EmittedOthers(opts, init);
      forall d ensures d in s.failed <==> NamedAt(init, d).Some? { RunReportsBuilds(opts, init, d); }
      assert AgreesOn(opts, s, init, if e.event.Result? then e.event.id else 0);
      StepCounts(opts, s, init, e);
      StepFirsts(opts, s, init, e);
      StepErrors(opts, s, init, e);
      StepWaits(opts, s, e);
    }
  }

  /** Closing the run changes no more than the number of waits. */
  lemma FinishedSummary(opts: Options, evs: seq<Stamped>, ids: seq<Id>, end: Stamp)
    requires DrainOrder(RunFrom(opts, EMPTY, evs).active, ids)
    ensures var f := Finish(RunFrom(opts, EMPTY, evs), ids, end);
      && Counts(f.sum, evs) && Firsts(f.sum, evs) && Errors(opts, f.sum, evs)
      && f.sum.waits == WaitsAmong(f.emitted)
  {
    var s := RunFrom(opts, EMPTY, evs);
    RunSummary(opts, evs);
    assert forall id | id in ids :: id in Elems(ids);
    WaitsConcat(s.emitted, HeldActs(s.held) + AbortedActs(s.active, ids, end));
  }
}
