/**
 The activity state machine behind the nix log: starts, stops, messages and progress in, finished
 activities out.

 Messages arrive classified, the regular expressions being outside the model, and JSON decoded.
 Step and Finish are the machine on values; Processor is the program's object.
 */
module NixLog {
  import opened Basics
  import opened Names

  type Stamp = int
  type Id = nat

  const TYPE_COPY_PATH := 100
  const TYPE_COPY_PATHS := 103
  const TYPE_BUILDS := 104
  const TYPE_BUILD := 105
  const TYPE_SUBSTITUTE := 108
  const TYPE_BUILD_WAITER := 111
  const TYPE_PROGRESS := 105
  const MAX_FAILED_DRVS := 5

  datatype Kind = Build | Substitute | Wait

  datatype ErrorType =
    | NoError | BuildError | DependencyFailed | Aborted | HashMismatch | EvalError | SignalError | OtherError

  datatype Activity = Activity(
    kind: Kind, name: string, path: string, server: string, start: Stamp, end: Stamp,
    failed: bool, errorType: ErrorType, reason: string,
    noSpan: bool, instant: bool, bytes: int, hasBytes: bool, placeholder: bool)

  datatype Progress = Progress(done: int, expected: int, failed: int)
  datatype Aggregate = Aggregate(typ: int, nested: bool, seen: bool, last: Progress)
  datatype Failure = Failure(reason: string, errorType: ErrorType, placeholder: bool)

  // order numbers the starts of a run; the end-of-run drain follows it.
  datatype Open = Open(act: Activity, order: nat)

  // Level-0 text: the failing derivation it names, or else what kind of error it is.
  datatype Text =
    | CannotBuild(drv: string, cause: Option<string>)
    | HashDiffers(drv: string, isPlaceholder: bool)
    | Interrupted
    | MentionsDerivation
    | Plain

  datatype Message =
    | DatabaseBusy
    | EvalCacheBusy
    | BusyElsewhere
    | LevelZero(text: Text, isError: bool, cleaned: string)
    | PlanBuilds(count: nat)
    | PlanFetches(count: nat)
    | OtherMessage

  datatype Event =
    | Start(id: Id, typ: int, parent: Id, path: string, server: string)
    | Stop(id: Id)
    | Msg(message: Message)
    | Result(id: Id, typ: int, fields: Option<(int, int, int, int)>)

  datatype Summary = Summary(
    planBuild: nat, planFetch: nat, firstActive: Option<Stamp>,
    lines: nat, dropped: nat, folded: nat, malformed: nat,
    firstError: string, failedDrvs: seq<string>,
    evalCacheBusy: nat, dbBusy: nat, waits: nat, kinds: set<ErrorType>)

  datatype State = State(
    active: map<Id, Open>, held: seq<Open>, failed: map<string, Failure>,
    aggs: map<Id, Aggregate>, copies: map<Id, Id>, started: nat, sum: Summary, emitted: seq<Activity>)

  const EMPTY_SUMMARY := Summary(0, 0, None, 0, 0, 0, 0, "", [], 0, 0, 0, {})
  const EMPTY := State(map[], [], map[], map[], map[], 0, EMPTY_SUMMARY, [])

  // nameOf: the name part of a store path.
  datatype Options = Options(minSubstituteSpan: int, nameOf: string -> string)

  predicate Contains(s: string, t: string) {
    t <= s || (s != [] && Contains(s[1..], t))
  }

  function ReasonType(reason: string): ErrorType {
    if Contains(reason, "dependency failed") || Contains(reason, "dependencies failed") then DependencyFailed
    else BuildError
  }

  function MarkFailed(a: Activity, f: Failure): Activity {
    a.(failed := true, reason := f.reason, errorType := f.errorType, placeholder := f.placeholder)
  }

  function AbortedAt(a: Activity, end: Stamp): Activity {
    a.(end := end, failed := true, errorType := Aborted, reason := "nix exited before the activity stopped")
  }

  function InstantFailure(opts: Options, drv: string, f: Failure, at: Stamp): Activity {
    MarkFailed(Activity(Build, opts.nameOf(drv), drv, "", at, at, false, NoError, "", false, true, 0, false, false), f)
  }

  function StartedActivity(opts: Options, kind: Kind, path: string, server: string, at: Stamp): Activity {
    Activity(kind, opts.nameOf(path), path, server, at, 0, false, NoError, "", false, false, 0, false, false)
  }

  function KindOf(typ: int): Option<Kind> {
    if typ == TYPE_BUILD then Some(Build)
    else if typ == TYPE_SUBSTITUTE then Some(Substitute)
    else if typ == TYPE_BUILD_WAITER then Some(Wait)
    else None
  }

  /** The texts that name a derivation. */
  predicate NamesDrv(text: Text) {
    text.CannotBuild? || text.HashDiffers?
  }

  function Reason(cause: Option<string>): string {
    if cause.Some? then cause.value else "build failed"
  }

  function FailureOf(text: Text): Failure
    requires NamesDrv(text)
  {
    match text
    case CannotBuild(_, cause) => Failure(Reason(cause), ReasonType(Reason(cause)), false)
    case HashDiffers(_, p) => Failure("hash mismatch in fixed-output derivation", HashMismatch, p)
  }

  // ---------------------------------------------------------------- the machine, field by field

  function WaitCount(acts: seq<Activity>): nat {
    if acts == [] then 0 else (if acts[0].kind.Wait? then 1 else 0) + WaitCount(acts[1..])
  }

  function Counted(sum: Summary, acts: seq<Activity>): Summary {
    sum.(waits := sum.waits + WaitCount(acts))
  }

  predicate OpenSubstitute(active: map<Id, Open>, id: Id) {
    id in active && active[id].act.kind.Substitute?
  }

  function StartAggs(aggs: map<Id, Aggregate>, e: Event): map<Id, Aggregate>
    requires e.Start?
  {
    if e.typ == TYPE_BUILDS || e.typ == TYPE_COPY_PATHS
    then aggs[e.id := Aggregate(e.typ, e.parent in aggs, false, Progress(0, 0, 0))] else aggs
  }

  function StartCopies(active: map<Id, Open>, copies: map<Id, Id>, e: Event): map<Id, Id>
    requires e.Start?
  {
    if e.typ == TYPE_COPY_PATH && OpenSubstitute(active, e.parent) then copies[e.id := e.parent] else copies
  }

  function Opened(opts: Options, started: nat, e: Event, at: Stamp): Open
    requires e.Start? && KindOf(e.typ).Some?
  {
    var kind := KindOf(e.typ).value;
    Open(StartedActivity(opts, kind, e.path, if kind.Substitute? then e.server else "", at), started + 1)
  }

  function StartActive(opts: Options, active: map<Id, Open>, started: nat, e: Event, at: Stamp): map<Id, Open>
    requires e.Start?
  {
    if KindOf(e.typ).Some? then active[e.id := Opened(opts, started, e, at)] else active
  }

  function StartSum(sum: Summary, e: Event, at: Stamp): Summary
    requires e.Start?
  {
    if e.typ != 0 && sum.firstActive.None? then sum.(firstActive := Some(at)) else sum
  }

  function OnStart(opts: Options, s: State, e: Event, at: Stamp): State
    requires e.Start?
  {
    State(StartActive(opts, s.active, s.started, e, at), s.held, s.failed, StartAggs(s.aggs, e),
          StartCopies(s.active, s.copies, e), if KindOf(e.typ).Some? then s.started + 1 else s.started,
          StartSum(s.sum, e, at), s.emitted)
  }

  function Ended(active: map<Id, Open>, id: Id, at: Stamp): Open
    requires id in active
  {
    active[id].(act := active[id].act.(end := at))
  }

  /** A stopped build no message has named waits for the end of the run or a late error. */
  predicate Holds(active: map<Id, Open>, failed: map<string, Failure>, id: Id) {
    id in active && active[id].act.kind.Build? && active[id].act.path !in failed
  }

  function StopEmits(
    opts: Options, active: map<Id, Open>, failed: map<string, Failure>, id: Id, at: Stamp): seq<Activity>
  {
    if id !in active || Holds(active, failed, id) then []
    else
      var a := Ended(active, id, at).act;
      match a.kind
      case Build => [MarkFailed(a, failed[a.path])]
      case Substitute => [a.(noSpan := opts.minSubstituteSpan > 0 && a.end - a.start < opts.minSubstituteSpan)]
      case Wait => [a]
  }

  function StopHeld(
    active: map<Id, Open>, failed: map<string, Failure>, held: seq<Open>, id: Id, at: Stamp): seq<Open>
  {
    if Holds(active, failed, id) then held + [Ended(active, id, at)] else held
  }

  function OnStop(opts: Options, s: State, id: Id, at: Stamp): State {
    var emits := StopEmits(opts, s.active, s.failed, id, at);
    State(s.active - {id}, StopHeld(s.active, s.failed, s.held, id, at), s.failed, s.aggs, s.copies - {id}, s.started,
          Counted(s.sum, emits), s.emitted + emits)
  }

  /** The first held build of a derivation, or |held| when there is none. */
  function FindHeld(held: seq<Open>, drv: string): (i: nat)
    ensures i <= |held| && (forall j | 0 <= j < i :: held[j].act.path != drv)
    ensures i < |held| ==> held[i].act.path == drv
  {
    if held == [] || held[0].act.path == drv then 0 else 1 + FindHeld(held[1..], drv)
  }

  function Without<T>(s: seq<T>, i: nat): seq<T> {
    if i < |s| then s[..i] + s[i + 1..] else s
  }

  predicate BuildingNow(active: map<Id, Open>, drv: string) {
    exists id | id in active :: active[id].act.kind.Build? && active[id].act.path == drv
  }

  function FailEmits(
    opts: Options, active: map<Id, Open>, held: seq<Open>, drv: string, f: Failure, at: Stamp): seq<Activity>
  {
    var i := FindHeld(held, drv);
    if i < |held| then [MarkFailed(held[i].act, f)]
    else if BuildingNow(active, drv) then []
    else [InstantFailure(opts, drv, f, at)]
  }

  function BlameSum(sum: Summary, name: string, f: Failure): Summary {
    sum.(kinds := sum.kinds + {f.errorType},
         failedDrvs := if |sum.failedDrvs| < MAX_FAILED_DRVS then sum.failedDrvs + [name] else sum.failedDrvs)
  }

  function BuildFailed(opts: Options, s: State, drv: string, f: Failure, at: Stamp): State {
    if drv in s.failed then s
    else
      State(s.active, Without(s.held, FindHeld(s.held, drv)), s.failed[drv := f], s.aggs, s.copies, s.started,
            BlameSum(s.sum, opts.nameOf(drv), f), s.emitted + FailEmits(opts, s.active, s.held, drv, f, at))
  }

  function NoteError(sum: Summary, isError: bool, cleaned: string): Summary {
    if isError && sum.firstError == "" then sum.(firstError := cleaned) else sum
  }

  /** What a message that names no derivation adds to the summary. */
  function MsgSum(sum: Summary, m: Message): Summary {
    match m
    case DatabaseBusy => sum.(dbBusy := sum.dbBusy + 1)
    case EvalCacheBusy => sum.(evalCacheBusy := sum.evalCacheBusy + 1)
    case BusyElsewhere => sum
    case PlanBuilds(n) => sum.(planBuild := sum.planBuild + n)
    case PlanFetches(n) => sum.(planFetch := sum.planFetch + n)
    case OtherMessage => sum
    case LevelZero(text, isError, cleaned) =>
      var noted := NoteError(sum, isError, cleaned);
      if NamesDrv(text) || !isError then noted
      else if text.Interrupted? then noted.(kinds := noted.kinds + {SignalError})
      else if text.MentionsDerivation? then noted.(kinds := noted.kinds + {OtherError})
      else noted.(kinds := noted.kinds + {EvalError})
  }

  predicate Blames(m: Message) {
    m.LevelZero? && NamesDrv(m.text)
  }

  function OnMsg(opts: Options, s: State, m: Message, at: Stamp): State {
    var s1 := s.(sum := MsgSum(s.sum, m));
    if Blames(m) then BuildFailed(opts, s1, m.text.drv, FailureOf(m.text), at) else s1
  }

  predicate Tracked(s: State, id: Id) {
    id in s.aggs || OpenSubstitute(s.active, id) || id in s.copies
  }

  function FoldAggs(aggs: map<Id, Aggregate>, id: Id, f: (int, int, int, int)): map<Id, Aggregate> {
    if id in aggs then aggs[id := aggs[id].(seen := true, last := Progress(f.0, f.1, f.3))] else aggs
  }

  function WithBytes(active: map<Id, Open>, t: Id, n: int): map<Id, Open> {
    if OpenSubstitute(active, t)
    then active[t := active[t].(act := active[t].act.(bytes := n, hasBytes := true))] else active
  }

  /** Progress of an aggregate stays with it; a copy's bytes go to the substitution that owns it. */
  function FoldActive(s: State, id: Id, f: (int, int, int, int)): map<Id, Open> {
    if id in s.aggs then s.active else WithBytes(s.active, if id in s.copies then s.copies[id] else id, f.0)
  }

  function Fold(s: State, id: Id, f: (int, int, int, int)): State {
    State(FoldActive(s, id, f), s.held, s.failed, FoldAggs(s.aggs, id, f), s.copies, s.started,
          s.sum.(folded := s.sum.folded + 1), s.emitted)
  }

  function OnResult(s: State, id: Id, typ: int, fields: Option<(int, int, int, int)>): State {
    if typ == TYPE_PROGRESS && Tracked(s, id) && fields.Some? then Fold(s, id, fields.value) else s
  }

  function Step(opts: Options, s: State, e: Event, at: Stamp): State {
    match e
    case Start(_, _, _, _, _) => OnStart(opts, s, e, at)
    case Stop(id) => OnStop(opts, s, id, at)
    case Msg(m) => OnMsg(opts, s, m, at)
    case Result(id, typ, fields) => OnResult(s, id, typ, fields)
  }

  /** The open activities in start order: what the end of the run closes. */
  ghost predicate DrainOrder(active: map<Id, Open>, ids: seq<Id>) {
    && Distinct(ids) && Elems(ids) == active.Keys
    && forall i, j | 0 <= i < j < |ids| && ids[i] in active && ids[j] in active ::
         active[ids[i]].order <= active[ids[j]].order
  }

  function HeldActs(held: seq<Open>): seq<Activity> {
    seq(|held|, i requires 0 <= i < |held| => held[i].act)
  }

  function AbortedActs(active: map<Id, Open>, ids: seq<Id>, end: Stamp): seq<Activity>
    requires forall id | id in ids :: id in active
  {
    seq(|ids|, i requires 0 <= i < |ids| => AbortedAt(active[ids[i]].act, end))
  }

  /** The end of a run: held builds succeeded, whatever is still open was aborted. */
  ghost function Finish(s: State, ids: seq<Id>, end: Stamp): State
    requires DrainOrder(s.active, ids)
  {
    assert forall id | id in ids :: id in Elems(ids);
    var acts := HeldActs(s.held) + AbortedActs(s.active, ids, end);
    State(map[], [], s.failed, s.aggs, s.copies, s.started, Counted(s.sum, acts), s.emitted + acts)
  }
}
