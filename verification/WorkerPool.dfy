/** The worker pool as a protocol over its atomic steps: an unbuffered hand-off of jobs, a done channel that is
    closed once, workers that survive a panicking job, and a Close that waits for all of them. */
module WorkerPool {
  // Where a select has both of its cases ready the choice is free, so a job may still be handed over after the done
  // channel is closed.

  import Names

  type Job = nat    // the same job may be submitted more than once

  datatype Worker = Idle | Running(job: Job) | Exited

  datatype State = State(
    workers: seq<Worker>,
    pending: multiset<Job>,      // submits that have not returned
    done: bool,
    waiting: nat,                // calls of Close that have not returned
    closed: nat,                 // calls of Close that have returned
    submitted: multiset<Job>,
    ran: multiset<Job>,          // jobs that returned or panicked
    dropped: multiset<Job>,
    panics: seq<int>)

  datatype Event =
    | Submit(job: Job)           // a caller enters Submit
    | Handoff(w: nat, job: Job)
    | Drop(job: Job)
    | Return(w: nat)
    | Panic(w: nat, value: int)
    | Close                      // a caller enters Close
    | Exit(w: nat)
    | CloseReturns

  function Start(workers: int): State {
    State(seq(if workers < 1 then 1 else workers, _ => Idle),
          multiset{}, false, 0, 0, multiset{}, multiset{}, multiset{}, [])
  }

  predicate Enabled(s: State, e: Event) {
    match e
    case Submit(_) => true
    case Handoff(w, j) => w < |s.workers| && s.workers[w].Idle? && j in s.pending
    case Drop(j) => s.done && j in s.pending
    case Return(w) => w < |s.workers| && s.workers[w].Running?
    case Panic(w, _) => w < |s.workers| && s.workers[w].Running?
    case Close => true
    case Exit(w) => w < |s.workers| && s.workers[w].Idle? && s.done
    case CloseReturns => s.waiting > 0 && AllExited(s.workers)
  }

  predicate AllExited(ws: seq<Worker>) {
    forall i | 0 <= i < |ws| :: ws[i].Exited?
  }

  function Apply(s: State, e: Event): State
    requires Enabled(s, e)
  {
    match e
    case Submit(j) => s.(pending := s.pending + multiset{j}, submitted := s.submitted + multiset{j})
    case Handoff(w, j) => s.(workers := s.workers[w := Running(j)], pending := s.pending - multiset{j})
    case Drop(j) => s.(pending := s.pending - multiset{j}, dropped := s.dropped + multiset{j})
    case Return(w) => s.(workers := s.workers[w := Idle], ran := s.ran + multiset{s.workers[w].job})
    case Panic(w, v) =>
      s.(workers := s.workers[w := Idle], ran := s.ran + multiset{s.workers[w].job}, panics := s.panics + [v])
    case Close => s.(done := true, waiting := s.waiting + 1)
    case Exit(w) => s.(workers := s.workers[w := Exited])
    case CloseReturns => s.(waiting := s.waiting - 1, closed := s.closed + 1)
  }

  /** The events of a worker. */
  predicate Works(e: Event) {
    e.Handoff? || e.Return? || e.Panic? || e.Exit?
  }

  /** A run, as the events in order. */
  predicate CanRun(s: State, run: seq<Event>)
    decreases run
  {
    run == [] || (Enabled(s, run[0]) && CanRun(Apply(s, run[0]), run[1..]))
  }

  function After(s: State, run: seq<Event>): State
    requires CanRun(s, run)
    decreases run
  {
    if run == [] then s else After(Apply(s, run[0]), run[1..])
  }

  // ---------------------------------------------------------------- workers

  function JobsOf(w: Worker): multiset<Job> {
    if w.Running? then multiset{w.job} else multiset{}
  }

  function Weight(w: Worker): nat {
    match w case Idle => 1 case Running(_) => 2 case Exited => 0
  }

  /** What the workers are running. */
  function InFlight(ws: seq<Worker>): multiset<Job> {
    if ws == [] then multiset{} else JobsOf(ws[0]) + InFlight(ws[1..])
  }

  function Live(ws: seq<Worker>): nat {
    if ws == [] then 0 else (if ws[0].Exited? then 0 else 1) + Live(ws[1..])
  }

  function Weights(ws: seq<Worker>): nat {
    if ws == [] then 0 else Weight(ws[0]) + Weights(ws[1..])
  }

  lemma {:induction false} WorkerChanges(ws: seq<Worker>, i: nat, w: Worker)
    requires i < |ws|
    ensures Live(ws[i := w]) + (if ws[i].Exited? then 0 else 1) == Live(ws) + (if w.Exited? then 0 else 1)
    ensures Weights(ws[i := w]) + Weight(ws[i]) == Weights(ws) + Weight(w)
  {
    if i == 0 {
      assert ws[i := w][1..] == ws[1..];
    } else {
      assert ws[i := w][1..] == ws[1..][i - 1 := w];
      WorkerChanges(ws[1..], i - 1, w);
    }
  }

  lemma {:induction false} FlightChanges(ws: seq<Worker>, i: nat, w: Worker, j: Job)
    requires i < |ws|
    ensures InFlight(ws[i := w])[j] + JobsOf(ws[i])[j] == InFlight(ws)[j] + JobsOf(w)[j]
  {
    if i == 0 {
      assert ws[i := w][1..] == ws[1..];
    } else {
      assert ws[i := w][1..] == ws[1..][i - 1 := w];
      FlightChanges(ws[1..], i - 1, w, j);
    }
  }

  lemma {:induction false} ExitedIdle(ws: seq<Worker>)
    ensures AllExited(ws) ==> InFlight(ws) == multiset{}
    ensures |InFlight(ws)| <= Live(ws) <= |ws|
    ensures AllExited(ws) <==> Live(ws) == 0
  {
    if ws != [] {
      assert ws == [ws[0]] + ws[1..];
      ExitedIdle(ws[1..]);
    }
  }

  // ---------------------------------------------------------------- every reachable state

  ghost predicate Invariant(s: State) {
    && Conserved(s)
    && (!s.done ==> s.dropped == multiset{} && Live(s.workers) == |s.workers| && s.waiting == s.closed == 0)
    && (s.closed > 0 ==> AllExited(s.workers))
    && |s.panics| <= |s.ran|
    && |s.workers| > 0
  }

  lemma {:induction false} AllIdle(n: nat)
    ensures InFlight(seq(n, _ => Idle)) == multiset{} && Live(seq(n, _ => Idle)) == n
  {
    if n > 0 {
      assert seq(n, _ => Idle)[1..] == seq(n - 1, _ => Idle);
      AllIdle(n - 1);
    }
  }

  lemma StartInvariant(workers: int)
    ensures Invariant(Start(workers))
    ensures Live(Start(workers).workers) == if workers < 1 then 1 else workers
  {
    AllIdle(if workers < 1 then 1 else workers);
  }

  /** The account of one job: it is waiting, running, run or dropped as often as it was submitted. */
  predicate Balanced(s: State, j: Job) {
    s.submitted[j] == s.pending[j] + InFlight(s.workers)[j] + s.ran[j] + s.dropped[j]
  }

  ghost predicate Conserved(s: State) {
    forall j :: Balanced(s, j)
  }

  lemma WorkerBalances(s: State, e: Event, j: Job)
    requires Balanced(s, j) && Enabled(s, e) && Works(e)
    ensures Balanced(Apply(s, e), j)
  {
    var after := if e.Handoff? then Running(e.job) else if e.Exit? then Exited else Idle;
    FlightChanges(s.workers, e.w, after, j);
  }

  lemma StepBalances(s: State, e: Event, j: Job)
    requires Balanced(s, j) && Enabled(s, e)
    ensures Balanced(Apply(s, e), j)
  {
    if Works(e) { WorkerBalances(s, e, j); }
  }

  lemma StepConserves(s: State, e: Event)
    requires Conserved(s) && Enabled(s, e)
    ensures Conserved(Apply(s, e))
  {
    forall j ensures Balanced(Apply(s, e), j) { StepBalances(s, e, j); }
  }

  lemma StepInvariant(s: State, e: Event)
    requires Invariant(s) && Enabled(s, e)
    ensures Invariant(Apply(s, e))
  {
    StepConserves(s, e);
    OnlyExitShrinksThePool(s, e);
  }

  /** In every state of every run each submitted job is waiting, running, run or dropped, once for each
      time it was submitted; and nothing is dropped while the pool is open. */
  lemma {:induction false} EveryRunConserves(s: State, run: seq<Event>)
    requires Invariant(s) && CanRun(s, run)
    ensures Invariant(After(s, run))
    decreases run
  {
    if run != [] {
      StepInvariant(s, run[0]);
      EveryRunConserves(Apply(s, run[0]), run[1..]);
    }
  }

  /** Only a worker's exit makes the pool smaller: a panicking job does not. */
  lemma OnlyExitShrinksThePool(s: State, e: Event)
    requires Enabled(s, e)
    ensures Live(Apply(s, e).workers) == Live(s.workers) - if e.Exit? then 1 else 0
    ensures |Apply(s, e).workers| == |s.workers|
  {
    match e
    case Handoff(w, j) => WorkerChanges(s.workers, w, Running(j));
    case Return(w) => WorkerChanges(s.workers, w, Idle);
    case Panic(w, v) => WorkerChanges(s.workers, w, Idle);
    case Exit(w) => WorkerChanges(s.workers, w, Exited);
    case _ =>
  }

  /** A drop or an exit happens only after some Close. */
  lemma {:induction false} NoDropBeforeClose(s: State, run: seq<Event>, i: nat)
    requires !s.done && CanRun(s, run) && i < |run| && (run[i].Drop? || run[i].Exit?)
    ensures exists k :: 0 <= k < i && run[k].Close?
    decreases run
  {
    if !run[0].Close? {
      NoDropBeforeClose(Apply(s, run[0]), run[1..], i - 1);
      var k :| 0 <= k < i - 1 && run[1..][k].Close?;
      assert run[k + 1].Close?;
    } else {
      assert i > 0;
    }
  }

  // ---------------------------------------------------------------- what a run leaves

  function PanicValues(run: seq<Event>): seq<int> {
    if run == [] then [] else PanicOf(run[0]) + PanicValues(run[1..])
  }

  function PanicOf(e: Event): seq<int> {
    if e.Panic? then [e.value] else []
  }

  lemma StepPanics(s: State, e: Event)
    requires Enabled(s, e)
    ensures Apply(s, e).panics == s.panics + PanicOf(e)
  {
  }

  /** The jobs of the events that have a property. */
  function JobsWhere(p: Event -> bool, run: seq<Event>): multiset<Job> {
    if run == [] then multiset{}
    else (if p(run[0]) && HasJob(run[0]) then multiset{run[0].job} else multiset{}) + JobsWhere(p, run[1..])
  }

  predicate HasJob(e: Event) {
    e.Submit? || e.Handoff? || e.Drop?
  }

  function Count(p: Event -> bool, run: seq<Event>): nat {
    if run == [] then 0 else (if p(run[0]) then 1 else 0) + Count(p, run[1..])
  }

  function OneJob(e: Event): multiset<Job> {
    if e.Handoff? then multiset{e.job} else multiset{}
  }

  lemma StepRunsJob(s: State, e: Event, j: Job)
    requires Enabled(s, e)
    ensures Apply(s, e).ran[j] + InFlight(Apply(s, e).workers)[j] == s.ran[j] + InFlight(s.workers)[j] + OneJob(e)[j]
  {
    match e
    case Handoff(w, k) => FlightChanges(s.workers, w, Running(k), j);
    case Return(w) => FlightChanges(s.workers, w, Idle, j);
    case Panic(w, _) => FlightChanges(s.workers, w, Idle, j);
    case Exit(w) => FlightChanges(s.workers, w, Exited, j);
    case _ =>
  }

  lemma StepRuns(s: State, e: Event)
    requires Enabled(s, e)
    ensures Apply(s, e).ran + InFlight(Apply(s, e).workers) == s.ran + InFlight(s.workers) + OneJob(e)
  {
    forall j { StepRunsJob(s, e, j); }
  }

  /** Every job handed to a worker is being run or has been run, once for each time it was handed over. */
  lemma {:induction false} HandedJobsRun(s: State, run: seq<Event>)
    requires CanRun(s, run)
    ensures var t := After(s, run);
      t.ran + InFlight(t.workers) == s.ran + InFlight(s.workers) + JobsWhere((e: Event) => e.Handoff?, run)
    decreases run
  {
    if run != [] {
      StepRuns(s, run[0]);
      HandedJobsRun(Apply(s, run[0]), run[1..]);
    }
  }

  /** The panics recorded are those of the run, in order. */
  lemma {:induction false} PanicsAreRecorded(s: State, run: seq<Event>)
    requires CanRun(s, run)
    ensures After(s, run).panics == s.panics + PanicValues(run)
    decreases run
  {
    if run != [] {
      var e, rest := run[0], run[1..];
      StepPanics(s, e);
      PanicsAreRecorded(Apply(s, e), rest);
      Names.ConcatAssociative(s.panics, PanicOf(e), PanicValues(rest));
    }
  }

  /** The jobs submitted and dropped are those of the run. */
  lemma {:induction false} JobsAreRecorded(s: State, run: seq<Event>)
    requires CanRun(s, run)
    ensures After(s, run).submitted == s.submitted + JobsWhere((e: Event) => e.Submit?, run)
    ensures After(s, run).dropped == s.dropped + JobsWhere((e: Event) => e.Drop?, run)
    decreases run
  {
    if run != [] { JobsAreRecorded(Apply(s, run[0]), run[1..]); }
  }

  /** The calls of Close that wait and that have returned are those of the run, and it is the first call that
      closes the pool. */
  lemma {:induction false} ClosesAreRecorded(s: State, run: seq<Event>)
    requires CanRun(s, run)
    ensures var t, calls, left :=
        After(s, run), Count((e: Event) => e.Close?, run), Count((e: Event) => e.CloseReturns?, run);
      && t.waiting + left == s.waiting + calls && t.closed == s.closed + left
      && (t.done <==> s.done || calls > 0)
    decreases run
  {
    if run != [] { ClosesAreRecorded(Apply(s, run[0]), run[1..]); }
  }

  // ---------------------------------------------------------------- after Close has returned

  /** Once a call of Close has returned no job is running, none ever starts again, and every later
      submit can only be dropped. */
  lemma {:induction false} ClosedForGood(s: State, run: seq<Event>)
    requires Invariant(s) && s.closed > 0 && CanRun(s, run)
    ensures forall i | 0 <= i < |run| :: !Works(run[i])
    ensures InFlight(After(s, run).workers) == multiset{} && After(s, run).ran == s.ran
    decreases run
  {
    ExitedIdle(s.workers);
    if run != [] {
      StepInvariant(s, run[0]);
      var t := Apply(s, run[0]);
      ClosedForGood(t, run[1..]);
      assert !Works(run[0]);
      forall i | 1 <= i < |run| ensures !Works(run[i]) { assert run[i] == run[1..][i - 1]; }
    }
  }

  // ---------------------------------------------------------------- shutdown

  function Measure(s: State): nat {
    3 * |s.pending| + Weights(s.workers) + s.waiting
  }

  predicate Internal(e: Event) {
    !e.Submit? && !e.Close?
  }

  lemma StepShrinks(s: State, e: Event)
    requires Enabled(s, e) && Internal(e)
    ensures Measure(Apply(s, e)) < Measure(s)
  {
    match e
    case Handoff(w, j) => WorkerChanges(s.workers, w, Running(j));
    case Return(w) => WorkerChanges(s.workers, w, Idle);
    case Panic(w, v) => WorkerChanges(s.workers, w, Idle);
    case Exit(w) => WorkerChanges(s.workers, w, Exited);
    case _ =>
  }

  predicate Settled(s: State) {
    s.pending == multiset{} && AllExited(s.workers) && s.waiting == 0
  }

  lemma SettledAccount(s: State)
    requires Conserved(s) && Settled(s)
    ensures s.submitted == s.ran + s.dropped
  {
    ExitedIdle(s.workers);
    forall j ensures s.submitted[j] == (s.ran + s.dropped)[j] { assert Balanced(s, j); }
  }

  /** Close never blocks for good when jobs end: until everything has settled some step is possible. */
  lemma ShutdownProgresses(s: State)
    requires s.done && !Settled(s)
    ensures exists e :: Internal(e) && Enabled(s, e)
  {
    if j :| j in s.pending {
      assert Internal(Drop(j)) && Enabled(s, Drop(j));
    } else if i :| 0 <= i < |s.workers| && !s.workers[i].Exited? {
      var e := if s.workers[i].Idle? then Exit(i) else Return(i);
      assert Internal(e) && Enabled(s, e);
    } else {
      assert Internal(CloseReturns) && Enabled(s, CloseReturns);
    }
  }

  /** After Close, whatever the scheduling, at most Measure steps are taken; and when none is possible
      any more, every submit and every Close has returned, and each submitted job was run or dropped. */
  lemma {:induction false} ShutdownEnds(s: State, run: seq<Event>)
    requires Invariant(s) && s.done && CanRun(s, run) && forall i | 0 <= i < |run| :: Internal(run[i])
    ensures |run| <= Measure(s)
    ensures var t := After(s, run);
      (forall e | Internal(e) :: !Enabled(t, e)) ==>
        Settled(t) && t.closed == s.closed + s.waiting && t.submitted == t.ran + t.dropped
    decreases run
  {
    if run == [] {
      if Settled(s) { SettledAccount(s); } else { ShutdownProgresses(s); }
    } else {
      StepInvariant(s, run[0]);
      StepShrinks(s, run[0]);
      forall i | 0 <= i < |run[1..]| ensures Internal(run[1..][i]) { assert run[1..][i] == run[i + 1]; }
      ShutdownEnds(Apply(s, run[0]), run[1..]);
    }
  }

  // ---------------------------------------------------------------- waiting for a worker

  /** A job cannot be handed over only while every worker that has not exited is busy, which in an open pool are
      all of them. */
  lemma SubmitWaitsOnlyWhenAllAreBusy(s: State, j: Job)
    requires Invariant(s) && j in s.pending
    ensures (forall w :: !Enabled(s, Handoff(w, j))) <==> |InFlight(s.workers)| == Live(s.workers)
    ensures !s.done ==> Live(s.workers) == |s.workers|
  {
    if w :| 0 <= w < |s.workers| && s.workers[w].Idle? {
      assert Enabled(s, Handoff(w, j));
      IdleLeavesRoom(s.workers, w);
    } else {
      AllBusy(s.workers);
    }
  }

  lemma {:induction false} AllBusy(ws: seq<Worker>)
    requires forall i | 0 <= i < |ws| :: !ws[i].Idle?
    ensures |InFlight(ws)| == Live(ws)
  {
    if ws != [] { AllBusy(ws[1..]); }
  }

  lemma {:induction false} IdleLeavesRoom(ws: seq<Worker>, i: nat)
    requires i < |ws| && ws[i].Idle?
    ensures |InFlight(ws)| < Live(ws)
  {
    ExitedIdle(ws[1..]);
    if i > 0 { IdleLeavesRoom(ws[1..], i - 1); }
  }
}
