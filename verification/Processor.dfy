/** The object that runs the activity machine: its fields are updated in place, event by event. */
module Processor {
  import opened Basics
  import opened Names
  import opened NixLog
  import opened ResultLine

  class Processor {
    const opts: Options
    var active: map<Id, Open>
    var held: seq<Open>
    var failed: map<string, Failure>
    var aggs: map<Id, Aggregate>
    var copies: map<Id, Id>
    var started: nat
    var sum: Summary
    var emitted: seq<Activity>    // what the sink has received

    /** Only builds are ever held. */
    ghost predicate Valid()
      reads this
    {
      forall o | o in held :: o.act.kind.Build?
    }

    constructor (opts: Options)
      ensures Valid()
      ensures this.opts == opts && Abs() == EMPTY
    {
      this.opts := opts;
      active, held, failed, aggs, copies, started := map[], [], map[], map[], map[], 0;
      sum, emitted := EMPTY_SUMMARY, [];
    }

    ghost function Abs(): State
      reads this
    {
      State(active, held, failed, aggs, copies, started, sum, emitted)
    }

    method Emit(a: Activity)
      modifies this`sum, this`emitted
      ensures sum == Counted(old(sum), [a]) && emitted == old(emitted) + [a]
    {
      OneWaitCount(a);
      if a.kind.Wait? { sum := sum.(waits := sum.waits + 1); }
      emitted := emitted + [a];
    }

    method Start(e: Event, at: Stamp)
      requires e.Start?
      requires Valid()
      modifies this
      ensures Valid()
      ensures Abs() == OnStart(opts, old(Abs()), e, at)
    {
      if e.typ != 0 && sum.firstActive.None? {
        sum := sum.(firstActive := Some(at));
      }
      if e.typ == TYPE_BUILDS || e.typ == TYPE_COPY_PATHS {
        aggs := aggs[e.id := Aggregate(e.typ, e.parent in aggs, false, Progress(0, 0, 0))];
        return;
      }
      if e.typ == TYPE_COPY_PATH {
        if e.parent in active && active[e.parent].act.kind.Substitute? {
          copies := copies[e.id := e.parent];
        }
        return;
      }
      var a;
      if e.typ == TYPE_BUILD {
        a := StartedActivity(opts, Build, e.path, "", at);
      } else if e.typ == TYPE_SUBSTITUTE {
        a := StartedActivity(opts, Substitute, e.path, e.server, at);
      } else if e.typ == TYPE_BUILD_WAITER {
        a := StartedActivity(opts, Wait, e.path, "", at);
      } else {
        return;
      }
      started := started + 1;
      active := active[e.id := Open(a, started)];
    }

    method Stop(id: Id, at: Stamp)
      requires Valid()
      modifies this
      ensures Valid()
      ensures Abs() == OnStop(opts, old(Abs()), id, at)
    {
      copies := copies - {id};
      if id !in active {
        assert active - {id} == active && emitted + [] == emitted;
        return;
      }
      var o := active[id];
      active := active - {id};
      var a := o.act.(end := at);
      match a.kind
      case Build =>
        if a.path in failed {
          Emit(MarkFailed(a, failed[a.path]));
        } else {
          held := held + [Open(a, o.order)];
          assert emitted + [] == emitted;
        }
      case Substitute =>
        Emit(a.(noSpan := opts.minSubstituteSpan > 0 && a.end - a.start < opts.minSubstituteSpan));
      case Wait =>
        Emit(a);
    }

    method Message(m: Message, at: Stamp)
      requires Valid()
      modifies this
      ensures Valid()
      ensures Abs() == OnMsg(opts, old(Abs()), m, at)
    {
      match m
      case DatabaseBusy => sum := sum.(dbBusy := sum.dbBusy + 1);
      case EvalCacheBusy => sum := sum.(evalCacheBusy := sum.evalCacheBusy + 1);
      case BusyElsewhere =>
      case PlanBuilds(n) => sum := sum.(planBuild := sum.planBuild + n);
      case PlanFetches(n) => sum := sum.(planFetch := sum.planFetch + n);
      case OtherMessage =>
      case LevelZero(text, isError, cleaned) => ErrorMsg(text, isError, cleaned, at);
    }

    method ErrorMsg(text: Text, isError: bool, cleaned: string, at: Stamp)
      requires Valid()
      modifies this
      ensures Valid()
      ensures Abs() == OnMsg(opts, old(Abs()), LevelZero(text, isError, cleaned), at)
    {
      if isError && sum.firstError == "" {
        sum := sum.(firstError := cleaned);
      }
      if NamesDrv(text) {
        FailNamed(text, at);
        return;
      }
      if !isError { return; }
      if text.Interrupted? {
        NoteKind(SignalError);
      } else if text.MentionsDerivation? {
        NoteKind(OtherError);
      } else {
        NoteKind(EvalError);
      }
    }

    /** A build that cannot be done, for the reason given if there is one, or a hash that differs. */
    method FailNamed(text: Text, at: Stamp)
      requires Valid() && NamesDrv(text)
      modifies this
      ensures Valid() && Abs() == BuildFailed(opts, old(Abs()), text.drv, FailureOf(text), at)
    {
      if text.CannotBuild? {
        var reason := "build failed";
        if text.cause.Some? { reason := text.cause.value; }
        FailBuild(text.drv, Failure(reason, ReasonType(reason), false), at);
      } else {
        FailBuild(text.drv, Failure("hash mismatch in fixed-output derivation", HashMismatch, text.isPlaceholder), at);
      }
    }

    method NoteKind(k: ErrorType)
      modifies this`sum
      ensures sum == old(sum).(kinds := old(sum).kinds + {k})
    {
      sum := sum.(kinds := sum.kinds + {k});
    }

    method Remember(drv: string, f: Failure)
      modifies this`failed, this`sum
      ensures failed == old(failed)[drv := f] && sum == BlameSum(old(sum), opts.nameOf(drv), f)
    {
      failed := failed[drv := f];
      NoteKind(f.errorType);
      if |sum.failedDrvs| < MAX_FAILED_DRVS {
        sum := sum.(failedDrvs := sum.failedDrvs + [opts.nameOf(drv)]);
      }
    }

    method FirstHeld(drv: string) returns (i: nat)
      ensures i == FindHeld(held, drv)
    {
      i := 0;
      while i < |held| && held[i].act.path != drv
        invariant i <= |held| && forall j | 0 <= j < i :: held[j].act.path != drv
      {
        i := i + 1;
      }
    }

    /** Apply a failure message to a derivation in whatever state it is. */
    method FailBuild(drv: string, f: Failure, at: Stamp)
      requires Valid()
      modifies this
      ensures Valid()
      ensures Abs() == BuildFailed(opts, old(Abs()), drv, f, at)
    {
      if drv in failed { return; }
      Remember(drv, f);
      var i := FirstHeld(drv);
      if i < |held| {
        assert held[i] in held;
        var a := MarkFailed(held[i].act, f);
        held := held[..i] + held[i + 1..];
        EmitBuild(a);
        return;
      }
      if exists id | id in active :: active[id].act.kind.Build? && active[id].act.path == drv {
        assert emitted + [] == emitted;
        return;
      }
      // Never started: a dependency failed, and the message is all there is.
      EmitBuild(InstantFailure(opts, drv, f, at));
    }

    method EmitBuild(a: Activity)
      requires a.kind.Build?
      modifies this`sum, this`emitted
      ensures sum == old(sum) && emitted == old(emitted) + [a]
    {
      OneWaitCount(a);
      Emit(a);
    }

    method IsTracked(id: Id) returns (tracked: bool)
      ensures tracked == Tracked(Abs(), id)
    {
      if id in aggs { return true; }
      if id in active && active[id].act.kind.Substitute? { return true; }
      return id in copies;
    }

    /** Keep the last progress of a tracked activity. */
    method KeepProgress(id0: Id, f: (int, int, int, int))
      modifies this
      ensures Abs() == Fold(old(Abs()), id0, f).(sum := old(sum)) && (old(Valid()) ==> Valid())
    {
      var id := id0;
      if id in aggs {
        aggs := aggs[id := aggs[id].(seen := true, last := Progress(f.0, f.1, f.3))];
        return;
      }
      if id in copies { id := copies[id]; }
      if id in active && active[id].act.kind.Substitute? {
        active := active[id := active[id].(act := active[id].act.(bytes := f.0, hasBytes := true))];
      }
    }

    method ResultEvent(id: Id, typ: int, fields: Option<(int, int, int, int)>)
      requires Valid()
      modifies this
      ensures Valid()
      ensures Abs() == OnResult(old(Abs()), id, typ, fields)
    {
      if typ == TYPE_PROGRESS {
        var tracked := IsTracked(id);
        if tracked && fields.Some? {
          KeepProgress(id, fields.value);
          sum := sum.(folded := sum.folded + 1);
        }
      }
    }

    method Handle(e: Event, at: Stamp)
      requires Valid()
      modifies this
      ensures Valid()
      ensures Abs() == Step(opts, old(Abs()), e, at)
    {
      match e
      case Start(_, _, _, _, _) => Start(e, at);
      case Stop(id) => Stop(id, at);
      case Msg(m) => Message(m, at);
      case Result(id, typ, fields) => ResultEvent(id, typ, fields);
    }

    /** One complete line, stamped when it was read. */
    method Line(line: string, decode: string -> Option<Event>, at: Stamp)
      requires Valid()
      modifies this
      ensures Valid()
      ensures Abs() == OnLine(opts, old(Abs()), line, decode, at)
    {
      SeeLine();
      var settled := TryFast(line);
      if !settled {
        DecodeLine(line, decode, at);
      }
    }

    method SeeLine()
      requires Valid()
      modifies this`sum
      ensures Valid() && Abs() == LineSeen(old(Abs()))
    {
      sum := sum.(lines := sum.lines + 1);
    }

    method TryFast(line: string) returns (settled: bool)
      requires Valid()
      modifies this
      ensures Valid()
      ensures settled == FastLine(old(Abs()), line).Some?
      ensures Abs() == if settled then FastLine(old(Abs()), line).value else old(Abs())
    {
      if !HasPrefix(line, PREFIX_RESULT) { return false; }
      if HasSuffix(line, SUFFIX_101) {
        sum := sum.(dropped := sum.dropped + 1);
        return true;
      }
      if !HasSuffix(line, SUFFIX_105) { return false; }
      var id := SuffixId(line);
      if id.None? { return false; }
      settled := TryProgress(line, id.value);
    }

    method TryProgress(line: string, id: Id) returns (settled: bool)
      requires Valid()
      modifies this
      ensures Valid()
      ensures settled == FastProgress(old(Abs()), id, FieldsOf(line)).Some?
      ensures Abs() == if settled then FastProgress(old(Abs()), id, FieldsOf(line)).value else old(Abs())
    {
      var tracked := IsTracked(id);
      if !tracked {
        sum := sum.(dropped := sum.dropped + 1);
        return true;
      }
      var f := FastFields(line);
      if f.None? { return false; }
      KeepProgress(id, Pad(f.value));
      sum := sum.(folded := sum.folded + 1);
      return true;
    }

    method DecodeLine(line: string, decode: string -> Option<Event>, at: Stamp)
      requires Valid()
      modifies this
      ensures Valid()
      ensures Abs() == Decode(opts, old(Abs()), line, decode, at)
    {
      var ev := decode(line);
      if ev.None? {
        sum := sum.(malformed := sum.malformed + 1);
      } else {
        Handle(ev.value, at);
      }
    }

    /** The end of the run: release the held builds as successful, then close what is still open. */
    method End(end: Stamp) returns (ghost ids: seq<Id>)
      requires Valid()
      modifies this
      ensures Valid() && DrainOrder(old(active), ids)
      ensures Abs() == Finish(old(Abs()), ids, end)
    {
      ghost var acts: seq<Activity> := [];
      for i := 0 to |held|
        invariant held == old(held) && active == old(active) && failed == old(failed) && aggs == old(aggs)
        invariant copies == old(copies) && started == old(started)
        invariant acts == HeldActs(held[..i])
        invariant sum == Counted(old(sum), acts) && emitted == old(emitted) + acts
      {
        assert HeldActs(held[..i + 1]) == HeldActs(held[..i]) + [held[i].act];
        ConcatAssociative(old(emitted), acts, [held[i].act]);
        CountedAppend(old(sum), acts, held[i].act);
        acts := acts + [held[i].act];
        Emit(held[i].act);
      }
      assert held[..|held|] == held;
      held := [];
      ghost var released := acts;
      var rest := SortByOrder(active);
      ids := rest;
      for i := 0 to |rest|
        invariant held == [] && active == old(active) && failed == old(failed) && aggs == old(aggs)
        invariant copies == old(copies) && started == old(started)
        invariant forall id | id in rest :: id in active
        invariant acts == released + AbortedActs(active, rest[..i], end)
        invariant sum == Counted(old(sum), acts) && emitted == old(emitted) + acts
      {
        var a := AbortedAt(active[rest[i]].act, end);
        assert AbortedActs(active, rest[..i + 1], end) == AbortedActs(active, rest[..i], end) + [a];
        ConcatAssociative(released, AbortedActs(active, rest[..i], end), [a]);
        ConcatAssociative(old(emitted), acts, [a]);
        CountedAppend(old(sum), acts, a);
        acts := acts + [a];
        Emit(a);
      }
      assert rest[..|rest|] == rest;
      active := map[];
    }
  }

  lemma {:induction false} WaitCountAppend(acts: seq<Activity>, a: Activity)
    ensures WaitCount(acts + [a]) == WaitCount(acts) + if a.kind.Wait? then 1 else 0
  {
    if acts == [] {
      assert WaitCount([a][1..]) == 0 && acts + [a] == [a];
    } else {
      assert (acts + [a])[1..] == acts[1..] + [a];
      WaitCountAppend(acts[1..], a);
    }
  }

  lemma CountedAppend(sum: Summary, acts: seq<Activity>, a: Activity)
    ensures Counted(Counted(sum, acts), [a]) == Counted(sum, acts + [a])
  {
    WaitCountAppend(acts, a);
    OneWaitCount(a);
  }

  lemma OneWaitCount(a: Activity)
    ensures WaitCount([a]) == if a.kind.Wait? then 1 else 0
  {
    assert WaitCount([a][1..]) == 0;
  }

  function OrderOf(active: map<Id, Open>, id: Id): nat {
    if id in active then active[id].order else 0
  }

  /** The open ids, collected in any order and sorted by start. */
  method SortByOrder(active: map<Id, Open>) returns (ids: seq<Id>)
    ensures DrainOrder(active, ids)
  {
    var rest: seq<Id> := [];
    var todo := active.Keys;
    while todo != {}
      invariant todo <= active.Keys && Distinct(rest) && Elems(rest) == active.Keys - todo
    {
      var id :| id in todo;
      assert id !in Elems(rest) && Elems(rest + [id]) == Elems(rest) + {id};
      rest := rest + [id];
      todo := todo - {id};
    }
    ids := SortSlice((a, b) => OrderOf(active, a) <= OrderOf(active, b), rest);
    PermutationDistinct(rest, ids);
  }
}
