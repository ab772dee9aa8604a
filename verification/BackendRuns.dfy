/**
 The worker thread with the backend it drives: at each point where the worker is
 in a backend call, the backend runs one command and emits its events, while the
 other threads go on.
 */
module BackendRuns {
  import opened Text
  import opened Events
  import opened LinuxBackends
  import Worker

  /**
   `commands` are those the backend has begun. `owed` is None until it begins the
   work of the present call, then the marks it has still to emit in it.
   */
  datatype System = System(worker: Worker.System, commands: seq<Command>, owed: Option<seq<Mark>>)

  const STARTED: System := System(Worker.STARTED, [], None)

  datatype Step =
    | Begin(command: Command)
    | Thread(step: Worker.Step)

  /** Which commands a backend call at the worker's point may stand for. */
  predicate Asked(pc: Worker.WorkerPc, c: Command) {
    match pc
    case Initializing => c.Initialize?
    case Polling => c.Poll?
    case Processing(_) => !c.Poll? && !c.Shutdown?
    case ShuttingDown => c.Shutdown?
    case _ => false
  }

  function View(s: System): BackendView {
    ViewRun(FRESH_BACKEND, s.commands)
  }

  /** A command only adds to the trace. */
  lemma StepAppends(v: BackendView, c: Command)
    ensures v.marks <= ViewStep(v, c).marks
  {
  }

  function NewMarks(v: BackendView, c: Command): (r: seq<Mark>)
    ensures ViewStep(v, c).marks == v.marks + r
  {
    StepAppends(v, c);
    ViewStep(v, c).marks[|v.marks|..]
  }

  /**
   One atomic step; a step that is not enabled leaves the system as it is. The
   backend emits its marks in order, with any other events between them, and
   returns from a call when it owes none.
   */
  function Next(s: System, step: Step): System {
    match step
    case Begin(c) =>
      if Worker.BackendAtWork(s.worker) && s.owed.None? && Asked(s.worker.pc, c)
      then s.(commands := s.commands + [c], owed := Some(NewMarks(View(s), c))) else s
    case Thread(w) =>
      var next := Worker.Next(s.worker, w);
      if w.Emit? then
        if s.owed.Some? && MarkOf(w.event) <= s.owed.value
        then s.(worker := next, owed := Some(s.owed.value[|MarkOf(w.event)|..])) else s
      else if next.pc == s.worker.pc then s.(worker := next)
      else if Worker.BackendAtWork(s.worker) && s.owed != Some([]) then s
      else s.(worker := next, owed := None)
  }

  function RunSteps(steps: seq<Step>): System {
    if steps == [] then STARTED else Next(RunSteps(steps[..|steps| - 1]), steps[|steps| - 1])
  }

  /** What has been emitted and what is owed make up the trace of the commands begun. */
  ghost predicate TraceInv(s: System) {
    && Marks(s.worker.emitted) + (if s.owed.Some? then s.owed.value else []) == View(s).marks
    && (s.owed.Some? ==> Worker.BackendAtWork(s.worker))
  }

  /** No scan runs before the first command and after the shutdown. */
  ghost predicate ScanInv(s: System) {
    s.worker.pc.Initializing? || s.worker.pc.Done? || (s.worker.pc.ShuttingDown? && s.owed.Some?) ==> !View(s).scanning
  }

  ghost predicate SystemInv(s: System) {
    Worker.QueuesInv(s.worker) && TraceInv(s) && ScanInv(s)
  }

  lemma ViewOfMore(commands: seq<Command>, c: Command)
    ensures ViewRun(FRESH_BACKEND, commands + [c]) == ViewStep(ViewRun(FRESH_BACKEND, commands), c)
  {
    hide ViewStep;
    assert (commands + [c])[..|commands|] == commands;
  }

  /** Besides emissions, the worker's steps emit nothing that is marked. */
  lemma OtherStepsUnmarked(s: Worker.System, step: Worker.Step)
    requires !step.Emit?
    ensures Marks(Worker.Next(s, step).emitted) == Marks(s.emitted)
  {
    hide Marks;
    if step.InitDone? && s.pc.Initializing? {
      var event := if step.ok then BackendInitialized(true) else ErrorOccurred("initialize", OtherError);
      UnmarkedEvents(s.emitted, [event]);
    }
  }

  lemma EmitKeepsTrace(s: System, e: Event)
    requires TraceInv(s)
    ensures TraceInv(Next(s, Thread(Worker.Emit(e))))
  {
    hide Marks, MarkOf, ViewRun;
    if s.owed.Some? && MarkOf(e) <= s.owed.value {
      OneMarkedEvent(s.worker.emitted, e);
      assert s.owed.value == MarkOf(e) + s.owed.value[|MarkOf(e)|..];
    }
  }

  lemma NextKeepsTrace(s: System, step: Step)
    requires TraceInv(s)
    ensures TraceInv(Next(s, step))
  {
    hide Marks, MarkOf, ViewRun, NewMarks, Asked;
    match step
    case Begin(c) =>
      ViewOfMore(s.commands, c);
      assert Marks(s.worker.emitted) + [] == Marks(s.worker.emitted);
    case Thread(w) =>
      if w.Emit? {
        EmitKeepsTrace(s, w.event);
      } else {
        OtherStepsUnmarked(s.worker, w);
      }
  }

  lemma NextKeepsScan(s: System, step: Step)
    requires TraceInv(s) && ScanInv(s)
    ensures ScanInv(Next(s, step))
  {
    hide Marks, MarkOf, ViewRun;
    if step.Begin? {
      ViewOfMore(s.commands, step.command);
    }
  }

  lemma NextKeepsWorker(s: System, step: Step)
    requires Worker.QueuesInv(s.worker)
    ensures Worker.QueuesInv(Next(s, step).worker)
  {
    hide Worker.QueuesInv, Worker.Next;
    if step.Thread? {
      Worker.NextKeepsQueues(s.worker, step.step);
    }
  }

  lemma StartedInv()
    ensures SystemInv(STARTED)
  {
  }

  lemma {:induction false} RunKeepsInv(steps: seq<Step>)
    ensures SystemInv(RunSteps(steps))
  {
    hide Next, TraceInv, ScanInv, Worker.QueuesInv;
    if steps == [] {
      StartedInv();
    } else {
      var before, step := RunSteps(steps[..|steps| - 1]), steps[|steps| - 1];
      RunKeepsInv(steps[..|steps| - 1]);
      NextKeepsWorker(before, step);
      NextKeepsTrace(before, step);
      NextKeepsScan(before, step);
    }
  }

  /**
   However the threads interleave and whatever the commands' outcomes are, what has
   been emitted is well bracketed; when the worker has ended, no scan and no pairing
   is left open.
   */
  lemma EmittedIsBracketed(steps: seq<Step>)
    ensures var s := RunSteps(steps);
            && Marks(s.worker.emitted) <= View(s).marks
            && After(Marks(s.worker.emitted)).Some?
            && (s.worker.pc.Done? ==> After(Marks(s.worker.emitted)) == Some(IDLE))
  {
    hide After, Marks;
    var s := RunSteps(steps);
    var emitted := Marks(s.worker.emitted);
    RunKeepsInv(steps);
    RunIsBracketed(s.commands);
    assert emitted == View(s).marks[..|emitted|];
    assert emitted + [] == emitted;
  }
}
