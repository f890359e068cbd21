/**
 From the lines of a log to activities: a whole run through the byte-level fast path obeys the laws of
 the activity machine run on the decoded events.
 */
module LogRun {
  import opened Basics
  import opened NixLog
  import opened NixLogLaws
  import opened ResultLine
  import opened RunReport
  import RetainedLines

  type Decoder = string -> Option<Event>

  datatype LogLine = LogLine(text: string, at: Stamp)

  /** The processor on a list of lines. */
  ghost function Processed(opts: Options, s: State, lines: seq<LogLine>, decode: Decoder): State
    decreases lines
  {
    if lines == [] then s
    else Processed(opts, OnLine(opts, s, lines[0].text, decode, lines[0].at), lines[1..], decode)
  }

  /** The events the lines decode to, malformed ones left out. */
  function Events(lines: seq<LogLine>, decode: Decoder): seq<Stamped> {
    if lines == [] then []
    else
      (match decode(lines[0].text) case None => [] case Some(e) => [Stamped(e, lines[0].at)])
      + Events(lines[1..], decode)
  }

  /** Equal but for the three counters of lines. */
  function Recount(s: State, t: State): State {
    s.(sum := s.sum.(lines := t.sum.lines, dropped := t.sum.dropped, malformed := t.sum.malformed))
  }

  ghost predicate SameRun(s: State, t: State) {
    Recount(s, t) == t
  }

  lemma StopSameRun(opts: Options, s: State, t: State, id: Id, at: Stamp)
    requires SameRun(s, t)
    ensures SameRun(OnStop(opts, s, id, at), OnStop(opts, t, id, at))
  {
  }

  lemma FailSameRun(opts: Options, s: State, t: State, d: string, f: Failure, at: Stamp)
    requires SameRun(s, t)
    ensures SameRun(BuildFailed(opts, s, d, f, at), BuildFailed(opts, t, d, f, at))
  {
  }

  lemma MessageSameRun(opts: Options, s: State, t: State, m: Message, at: Stamp)
    requires SameRun(s, t)
    ensures SameRun(OnMsg(opts, s, m, at), OnMsg(opts, t, m, at))
  {
    var s1, t1 := s.(sum := MsgSum(s.sum, m)), t.(sum := MsgSum(t.sum, m));
    assert SameRun(s1, t1);
    if Blames(m) { FailSameRun(opts, s1, t1, m.text.drv, FailureOf(m.text), at); }
  }

  /** What an event does never depends on the counters of lines. */
  lemma StepSameRun(opts: Options, s: State, t: State, e: Event, at: Stamp)
    requires SameRun(s, t)
    ensures SameRun(Step(opts, s, e, at), Step(opts, t, e, at))
  {
    match e
    case Start(_, _, _, _, _) =>
    case Stop(id) => StopSameRun(opts, s, t, id, at);
    case Msg(m) => MessageSameRun(opts, s, t, m, at);
    case Result(id, typ, fields) =>
  }

  lemma LineSameRun(opts: Options, s: State, t: State, line: string, decode: Decoder, at: Stamp)
    requires SameRun(s, t) && Faithful(line, decode)
    ensures SameRun(OnLine(opts, s, line, decode, at),
                    match decode(line) case None => t case Some(e) => Step(opts, t, e, at))
  {
    FastPathRefinesDecode(opts, s, line, decode, at);
    if decode(line).Some? { StepSameRun(opts, LineSeen(s), t, decode(line).value, at); }
  }

  /** Reading the lines of a log, fast path and all, is running the machine on the decoded events. */
  lemma {:induction false} LinesAreEvents(opts: Options, s: State, t: State, lines: seq<LogLine>, decode: Decoder)
    requires SameRun(s, t) && forall l | l in lines :: Faithful(l.text, decode)
    ensures SameRun(Processed(opts, s, lines, decode), RunFrom(opts, t, Events(lines, decode)))
    decreases lines
  {
    if lines != [] {
      var l, rest := lines[0], lines[1..];
      assert l in lines;
      LineSameRun(opts, s, t, l.text, decode, l.at);
      var s1 := OnLine(opts, s, l.text, decode, l.at);
      match decode(l.text)
      case None =>
        assert Events(lines, decode) == Events(rest, decode);
        LinesAreEvents(opts, s1, t, rest, decode);
      case Some(e) =>
        var evs := Events(lines, decode);
        assert evs[0] == Stamped(e, l.at) && evs[1..] == Events(rest, decode);
        LinesAreEvents(opts, s1, Step(opts, t, e, l.at), rest, decode);
    }
  }

  /** The laws of the machine hold of a log read line by line: nothing is left held or open, every start
      is emitted once, and each derivation that started at most once gets its one verdict. */
  lemma LogsObeyTheLaws(opts: Options, lines: seq<LogLine>, decode: Decoder, ids: seq<Id>, end: Stamp, d: string)
    requires forall l | l in lines :: Faithful(l.text, decode)
    requires NoReuse({}, Events(lines, decode)) && StartsOnce(UNTOLD, Events(lines, decode), d)
    requires DrainOrder(Processed(opts, EMPTY, lines, decode).active, ids)
    ensures var f := Finish(Processed(opts, EMPTY, lines, decode), ids, end);
      var st, builds := StoryOf(UNTOLD, Events(lines, decode), d), BuildsOf(f.emitted, d);
      && AllEmitted(f, StartedCores(opts, Events(lines, decode)))
      && |builds| == (if st.named || st.id.Some? then 1 else 0)
      && (|builds| == 1 ==> (builds[0].failed <==> st.named || !st.stopped))
  {
    LinesAreEvents(opts, EMPTY, EMPTY, lines, decode);
    Conservation(opts, Events(lines, decode));
    var evs := Events(lines, decode);
    EveryStartEmittedOnce(RunFrom(opts, EMPTY, evs), StartedCores(opts, evs), ids, end);
    OneVerdictPerDerivation(opts, Events(lines, decode), ids, end, d);
  }

  /** What a log reports: downloads and waits, the builds of each derivation and the summary are those that the
      decoded events name. */
  lemma LogsReport(opts: Options, lines: seq<LogLine>, decode: Decoder, ids: seq<Id>, end: Stamp, d: string)
    requires forall l | l in lines :: Faithful(l.text, decode)
    requires DrainOrder(Processed(opts, EMPTY, lines, decode).active, ids)
    ensures var f, evs := Finish(Processed(opts, EMPTY, lines, decode), ids, end), Events(lines, decode);
      && OpenInOrder(evs, ids)
      && Others(f.emitted) == StoppedOthers(opts, evs) + Others(CutOffs(opts, evs, ids, end))
      && BuildsOf(f.emitted, d) ==
           Reported(opts, evs, d) + (Waiting(opts, evs, d) + BuildsOf(CutOffs(opts, evs, ids, end), d))
      && Counts(f.sum, evs) && Firsts(f.sum, evs) && Errors(opts, f.sum, evs)
      && f.sum.waits == WaitsAmong(f.emitted)
  {
    var evs := Events(lines, decode);
    LinesAreEvents(opts, EMPTY, EMPTY, lines, decode);
    FinishedOthers(opts, evs, ids, end);
    FinishedBuilds(opts, evs, ids, end, d);
    FinishedSummary(opts, evs, ids, end);
    FinishSameRun(Processed(opts, EMPTY, lines, decode), RunFrom(opts, EMPTY, evs), ids, end);
  }

  lemma FinishSameRun(s: State, t: State, ids: seq<Id>, end: Stamp)
    requires SameRun(s, t) && DrainOrder(s.active, ids)
    ensures SameRun(Finish(s, ids, end), Finish(t, ids, end))
  {
  }

  // ---------------------------------------------------------------- the counters of lines

  function Undecoded(lines: seq<LogLine>, decode: Decoder): nat {
    if lines == [] then 0 else (if decode(lines[0].text).None? then 1 else 0) + Undecoded(lines[1..], decode)
  }

  predicate SameCounters(a: Summary, b: Summary) {
    a.lines == b.lines && a.malformed == b.malformed && a.dropped == b.dropped
  }

  lemma MsgKeepsCounters(opts: Options, s: State, m: Message, at: Stamp)
    ensures SameCounters(OnMsg(opts, s, m, at).sum, s.sum)
  {
    assert SameCounters(MsgSum(s.sum, m), s.sum);
  }

  lemma StepKeepsCounters(opts: Options, s: State, e: Event, at: Stamp)
    ensures SameCounters(Step(opts, s, e, at).sum, s.sum)
  {
    if e.Msg? { MsgKeepsCounters(opts, s, e.message, at); }
  }

  /** Every line is counted, and counted as malformed exactly when it cannot be decoded. */
  lemma {:induction false} EachLineIsCounted(opts: Options, s: State, lines: seq<LogLine>, decode: Decoder)
    requires forall l | l in lines :: Faithful(l.text, decode)
    ensures var s' := Processed(opts, s, lines, decode);
      s'.sum.lines == s.sum.lines + |lines| && s'.sum.malformed == s.sum.malformed + Undecoded(lines, decode)
    decreases lines
  {
    if lines != [] {
      var l := lines[0];
      assert l in lines;
      FastPathRefinesDecode(opts, s, l.text, decode, l.at);
      if decode(l.text).Some? { StepKeepsCounters(opts, LineSeen(s), decode(l.text).value, l.at); }
      EachLineIsCounted(opts, OnLine(opts, s, l.text, decode, l.at), lines[1..], decode);
    }
  }

  lemma BuildLogSuffix()
    ensures SUFFIX_101 == "\"type\":" + RenderNat(101) + "}"
  {
    RetainedLines.ThreeDigits(101);
  }

  /** A line of build output is dropped without a decode; a result of a type other than that and progress is
      decoded like any other line. */
  lemma ResultsByType(opts: Options, s: State, rest: string, typ: int, decode: Decoder, at: Stamp)
    ensures var after := OnLine(opts, s, RetainedLines.ResultObject(rest, typ), decode, at);
      && (typ == 101 ==> after == s.(sum := s.sum.(lines := s.sum.lines + 1, dropped := s.sum.dropped + 1)))
      && (typ != 101 && typ != 105 ==>
            after == AlwaysDecode(opts, s, RetainedLines.ResultObject(rest, typ), decode, at))
  {
    BuildLogSuffix();
    RetainedLines.SuffixesAreTypes();
    RetainedLines.EndsInType(rest, typ, 101, SUFFIX_101);
    RetainedLines.EndsInType(rest, typ, 105, SUFFIX_105);
    RetainedLines.BeginsAsResult(rest, typ);
  }

  /** What a line of progress does, read by the fast path or decoded: of one to four numbers the first, second
      and fourth are kept for a total, and the first for a download that is reported on by its own id. */
  lemma ProgressIsKept(opts: Options, s: State, fields: seq<int>, id: nat, decode: Decoder, at: Stamp)
    requires Faithful(RenderLine(fields, id), decode) && decode(RenderLine(fields, id)) == Decoded(fields, id)
    requires id < UINT64_LIMIT && 1 <= |fields| <= 4 && forall x | x in fields :: -INT64_LIMIT <= x < INT64_LIMIT
    ensures var after := OnLine(opts, s, RenderLine(fields, id), decode, at);
      && (id in s.aggs ==>
            && id in after.aggs && after.aggs[id].seen && after.aggs[id].last.done == fields[0]
            && after.aggs[id].last.expected == (if |fields| > 1 then fields[1] else 0)
            && after.aggs[id].last.failed == (if |fields| > 3 then fields[3] else 0))
      && (id !in s.aggs && id !in s.copies && OpenSubstitute(s.active, id) ==>
            id in after.active && after.active[id].act.hasBytes && after.active[id].act.bytes == fields[0])
  {
    FastPathRefinesDecode(opts, s, RenderLine(fields, id), decode, at);
  }
}
