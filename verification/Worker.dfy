/**
 The command and event queues and the worker thread between them, over one
 start/stop cycle, in any interleaving with the script thread.
 */
module Worker {
  import opened Text
  import opened Events

  /** A queue object; each method body is one locked section. */
  class ThreadSafeQueue<T> {
    var items: seq<T>
    var stopped: bool

    constructor ()
      ensures items == [] && !stopped
    {
      items, stopped := [], false;
    }

    method Push(item: T)
      modifies this`items
      ensures items == old(items) + [item]
    {
      items := items + [item];
    }

    method TryPop() returns (r: Option<T>)
      modifies this`items
      ensures r.None? <==> old(items) == []
      ensures old(items) == (if r.Some? then [r.value] else []) + items
    {
      if items == [] {
        return None;
      }
      r := Some(items[0]);
      items := items[1..];
    }

    /** The moment a wait returns: an item is there, the queue is stopped, or the time is up. */
    method FinishWaitPop(timedOut: bool) returns (r: Option<T>)
      requires items != [] || stopped || timedOut
      modifies this`items
      ensures r.None? <==> old(items) == []
      ensures old(items) == (if r.Some? then [r.value] else []) + items
    {
      r := TryPop();
    }

    method Stop()
      modifies this`stopped
      ensures stopped
    {
      stopped := true;
    }

    method Reset()
      modifies this
      ensures items == [] && !stopped
    {
      stopped := false;
      while items != []
        invariant !stopped
        decreases |items|
      {
        items := items[1..];
      }
    }
  }

  // ----- the step system -----

  datatype WorkerCommand = ShutdownCommand | BackendCommand(id: int)

  datatype WorkerPc =
    | Initializing
    | Checking                        // about to test `running`
    | Popping                         // in `wait_pop`
    | Polling                         // in the backend's poll
    | Processing(c: WorkerCommand)
    | ShuttingDown
    | Done

  /** How far `stop` has come. */
  datatype StopPc = NotStopping | PushedShutdown | ClearedRunning | StoppedQueue | Joined

  /** The shared state, then the histories the theorems speak of. */
  datatype System = System(
    commands: seq<WorkerCommand>, queueStopped: bool, running: bool, pc: WorkerPc, stopPc: StopPc, events: seq<Event>,
    enqueued: seq<WorkerCommand>, processed: seq<WorkerCommand>, emitted: seq<Event>, handled: seq<Event>,
    initOk: bool, shutdowns: nat,
    processedAtStop: Option<nat>)  // how many commands were processed when `running` became false

  /** Just after `start`. */
  const STARTED: System :=
    System([], false, true, Initializing, NotStopping, [], [], [], [], [], false, 0, None)

  datatype Step =
    | Enqueue(command: WorkerCommand)
    | TakeEvent               // the script thread pops an event and handles it
    | StopPush | StopFlag | StopQueue | StopJoin
    | Emit(event: Event)      // the backend emits while it is at work
    | InitDone(ok: bool)
    | Check
    | PopDone(timedOut: bool)
    | PollDone
    | ProcessDone
    | ShutdownDone

  function WithEvent(s: System, e: Event): System {
    s.(events := s.events + [e], emitted := s.emitted + [e])
  }

  function Push(s: System, c: WorkerCommand): System {
    s.(commands := s.commands + [c], enqueued := s.enqueued + [c])
  }

  function NoLongerRunning(s: System): System {
    s.(running := false, processedAtStop := if s.running then Some(|s.processed|) else s.processedAtStop)
  }

  predicate BackendAtWork(s: System) {
    s.pc.Initializing? || s.pc.Polling? || s.pc.ShuttingDown? || (s.pc.Processing? && s.pc.c != ShutdownCommand)
  }

  /** One atomic step; a step that is not enabled leaves the system as it is. */
  function Next(s: System, step: Step): System {
    match step
    case Enqueue(c) => Push(s, c)
    case TakeEvent =>
      if s.events == [] then s else s.(events := s.events[1..], handled := s.handled + [s.events[0]])
    case StopPush =>
      if s.stopPc.NotStopping? && s.running then Push(s, ShutdownCommand).(stopPc := PushedShutdown) else s
    case StopFlag => if s.stopPc.PushedShutdown? then NoLongerRunning(s).(stopPc := ClearedRunning) else s
    case StopQueue => if s.stopPc.ClearedRunning? then s.(queueStopped := true, stopPc := StoppedQueue) else s
    case StopJoin => if s.stopPc.StoppedQueue? && s.pc.Done? then s.(stopPc := Joined) else s
    case Emit(e) => if BackendAtWork(s) then WithEvent(s, e) else s
    case InitDone(ok) =>
      if !s.pc.Initializing? then s
      else if ok then WithEvent(s, BackendInitialized(true)).(pc := Checking, initOk := true)
      else WithEvent(s, ErrorOccurred("initialize", OtherError)).(pc := Done)
    case Check => if s.pc.Checking? then s.(pc := if s.running then Popping else ShuttingDown) else s
    case PopDone(timedOut) =>
      if !s.pc.Popping? then s
      else if s.commands != [] then s.(pc := Processing(s.commands[0]), commands := s.commands[1..])
      else if s.queueStopped || timedOut then s.(pc := Polling)
      else s
    case PollDone => if s.pc.Polling? then s.(pc := Checking) else s
    case ProcessDone =>
      if !s.pc.Processing? then s
      else
        var done := s.(pc := Checking, processed := s.processed + [s.pc.c]);
        if s.pc.c == ShutdownCommand then NoLongerRunning(done) else done
    case ShutdownDone => if s.pc.ShuttingDown? then s.(pc := Done, shutdowns := s.shutdowns + 1) else s
  }

  function RunSteps(steps: seq<Step>): System {
    if steps == [] then STARTED else Next(RunSteps(steps[..|steps| - 1]), steps[|steps| - 1])
  }

  // ----- the worker thread's object -----

  /**
   The source's object: the script thread calls the first group of methods, the
   worker thread is at `pc` and takes the second group. Each method is one step
   of the system above, on the queue objects.
   */
  class WorkerThread {
    const commandQueue: ThreadSafeQueue<WorkerCommand>
    const eventQueue: ThreadSafeQueue<Event>
    var running: bool
    var pc: WorkerPc
    var stopPc: StopPc
    ghost var enqueued: seq<WorkerCommand>
    ghost var processed: seq<WorkerCommand>
    ghost var emitted: seq<Event>
    ghost var handled: seq<Event>
    ghost var initOk: bool
    ghost var shutdowns: nat
    ghost var processedAtStop: Option<nat>

    ghost function State(): System
      reads this, commandQueue, eventQueue
    {
      System(commandQueue.items, commandQueue.stopped, running, pc, stopPc, eventQueue.items,
             enqueued, processed, emitted, handled, initOk, shutdowns, processedAtStop)
    }

    ghost predicate Valid() {
      (commandQueue as object) != eventQueue
    }

    constructor ()
      ensures Valid() && fresh(commandQueue) && fresh(eventQueue) && !running && pc.Done?
    {
      commandQueue := new ThreadSafeQueue();
      eventQueue := new ThreadSafeQueue();
      running, pc, stopPc := false, Done, Joined;
      enqueued, processed, emitted, handled := [], [], [], [];
      initOk, shutdowns, processedAtStop := false, 0, None;
    }

    /** A worker that is not running has been joined or was never started. */
    method Start()
      requires Valid() && (running || pc.Done?)
      modifies this, commandQueue, eventQueue
      ensures State() == if old(running) then old(State()) else STARTED
    {
      if running {
        return;
      }
      commandQueue.Reset();
      eventQueue.Reset();
      running, pc, stopPc := true, Initializing, NotStopping;
      enqueued, processed, emitted, handled := [], [], [], [];
      initOk, shutdowns, processedAtStop := false, 0, None;
    }

    method EnqueueCommand(command: WorkerCommand)
      requires Valid()
      modifies this`enqueued, commandQueue
      ensures State() == Next(old(State()), Enqueue(command))
    {
      commandQueue.Push(command);
      enqueued := enqueued + [command];
    }

    method TakeEvent() returns (event: Option<Event>)
      requires Valid()
      modifies this`handled, eventQueue
      ensures State() == Next(old(State()), Step.TakeEvent)
      ensures event.None? <==> old(eventQueue.items) == []
    {
      event := eventQueue.TryPop();
      if event.Some? {
        handled := handled + [event.value];
      }
    }

    /** `stop`, one action at a time. */
    method StopFirst()
      requires Valid() && (running ==> stopPc.NotStopping?)
      modifies this`enqueued, this`stopPc, commandQueue
      ensures State() == Next(old(State()), StopPush)
    {
      if !running {
        return;
      }
      EnqueueCommand(ShutdownCommand);
      stopPc := PushedShutdown;
    }

    method StopSecond()
      requires Valid() && stopPc.PushedShutdown?
      modifies this`running, this`processedAtStop, this`stopPc
      ensures State() == Next(old(State()), StopFlag)
    {
      ClearRunning();
      stopPc := ClearedRunning;
    }

    method ClearRunning()
      modifies this`running, this`processedAtStop
      ensures State() == NoLongerRunning(old(State()))
    {
      processedAtStop := if running then Some(|processed|) else processedAtStop;
      running := false;
    }

    method StopThird()
      requires Valid() && stopPc.ClearedRunning?
      modifies this`stopPc, commandQueue
      ensures State() == Next(old(State()), StopQueue)
    {
      commandQueue.Stop();
      stopPc := StoppedQueue;
    }

    method Join()
      requires Valid() && stopPc.StoppedQueue? && pc.Done?
      modifies this`stopPc
      ensures State() == Next(old(State()), StopJoin)
    {
      stopPc := Joined;
    }

    /** The backend's `on_event` callback. */
    method OnEvent(event: Event)
      requires Valid() && BackendAtWork(State())
      modifies this`emitted, eventQueue
      ensures State() == Next(old(State()), Emit(event))
    {
      eventQueue.Push(event);
      emitted := emitted + [event];
    }

    method FinishInitialize(ok: bool)
      requires Valid() && pc.Initializing?
      modifies this`emitted, this`pc, this`initOk, eventQueue
      ensures State() == Next(old(State()), InitDone(ok))
    {
      if ok {
        OnEvent(BackendInitialized(true));
        pc := Checking;
        initOk := true;
      } else {
        OnEvent(ErrorOccurred("initialize", OtherError));
        pc := Done;
      }
    }

    method CheckRunning()
      requires Valid() && pc.Checking?
      modifies this`pc
      ensures State() == Next(old(State()), Check)
    {
      pc := if running then Popping else ShuttingDown;
    }

    /** The end of `wait_pop`: an item, a stopped queue or the time limit. */
    method FinishWaitPop(timedOut: bool)
      requires Valid() && pc.Popping? && (commandQueue.items != [] || commandQueue.stopped || timedOut)
      modifies this`pc, commandQueue
      ensures State() == Next(old(State()), PopDone(timedOut))
    {
      var command := commandQueue.FinishWaitPop(timedOut);
      pc := if command.Some? then Processing(command.value) else Polling;
    }

    method FinishPoll()
      requires Valid() && pc.Polling?
      modifies this`pc
      ensures State() == Next(old(State()), PollDone)
    {
      pc := Checking;
    }

    method FinishCommand()
      requires Valid() && pc.Processing?
      modifies this`pc, this`processed, this`running, this`processedAtStop
      ensures State() == Next(old(State()), ProcessDone)
    {
      var command := pc.c;
      pc := Checking;
      processed := processed + [command];
      if command == ShutdownCommand {
        ClearRunning();
      }
    }

    method FinishShutdown()
      requires Valid() && pc.ShuttingDown?
      modifies this`pc, this`shutdowns
      ensures State() == Next(old(State()), ShutdownDone)
    {
      pc := Done;
      shutdowns := shutdowns + 1;
    }
  }

  // ----- invariants over every interleaving -----

  function InHand(s: System): seq<WorkerCommand> {
    if s.pc.Processing? then [s.pc.c] else []
  }

  /** The worker may still process a command it popped before it sees that it should stop. */
  predicate MayStillProcess(pc: WorkerPc) {
    pc.Initializing? || pc.Popping? || pc.Polling? || pc.Processing?
  }

  /** Everything that entered a queue has left it in order or is still there. */
  ghost predicate QueuesInv(s: System) {
    && s.enqueued == s.processed + InHand(s) + s.commands
    && s.emitted == s.handled + s.events
  }

  ghost predicate StopInv(s: System) {
    && (s.running <==> s.processedAtStop.None?)
    && (s.processedAtStop.Some? ==>
          if MayStillProcess(s.pc) then |s.processed| == s.processedAtStop.value
          else s.processedAtStop.value <= |s.processed| <= s.processedAtStop.value + 1)
    && s.shutdowns == (if s.pc.Done? && s.initOk then 1 else 0)
    && (s.pc.Initializing? ==> !s.initOk) && (s.pc.Initializing? || s.pc.Done? || s.initOk)
    && (s.pc.ShuttingDown? || (s.pc.Done? && s.initOk) ==> !s.running)
    && (s.pc.Initializing? ==> s.processed == [])
  }

  ghost predicate SystemInv(s: System) {
    QueuesInv(s) && StopInv(s)
  }

  lemma NextKeepsQueues(s: System, step: Step)
    requires QueuesInv(s)
    ensures QueuesInv(Next(s, step))
  {
    CommandsStayInOrder(s, step);
    EventsStayInOrder(s, step);
  }

  lemma EventsStayInOrder(s: System, step: Step)
    requires s.emitted == s.handled + s.events
    ensures Next(s, step).emitted == Next(s, step).handled + Next(s, step).events
  {
    match step
    case TakeEvent =>
      if s.events != [] {
        assert s.handled + s.events == s.handled + [s.events[0]] + s.events[1..];
      }
    case Emit(e) => assert s.handled + (s.events + [e]) == s.handled + s.events + [e];
    case InitDone(_) =>
      assert forall e :: s.handled + (s.events + [e]) == s.handled + s.events + [e];
    case _ =>
  }

  lemma CommandsStayInOrder(s: System, step: Step)
    requires s.enqueued == s.processed + InHand(s) + s.commands
    ensures Next(s, step).enqueued == Next(s, step).processed + InHand(Next(s, step)) + Next(s, step).commands
  {
    var p, h := s.processed, InHand(s);
    match step
    case Enqueue(c) => assert p + h + (s.commands + [c]) == p + h + s.commands + [c];
    case StopPush => assert p + h + (s.commands + [ShutdownCommand]) == p + h + s.commands + [ShutdownCommand];
    case PopDone(_) =>
      if s.commands != [] {
        assert p + [] + s.commands == p + [s.commands[0]] + s.commands[1..];
      }
    case ProcessDone => assert p + h + [] == p + h;
    case _ =>
  }

  lemma NextKeepsStop(s: System, step: Step)
    requires StopInv(s)
    ensures StopInv(Next(s, step))
  {
  }

  lemma NextKeepsInv(s: System, step: Step)
    requires SystemInv(s)
    ensures SystemInv(Next(s, step))
  {
    hide Next, QueuesInv, StopInv;
    NextKeepsQueues(s, step);
    NextKeepsStop(s, step);
  }

  lemma StartedInv()
    ensures SystemInv(STARTED)
  {
  }

  lemma {:induction false} RunKeepsInv(steps: seq<Step>)
    ensures SystemInv(RunSteps(steps))
  {
    hide SystemInv, Next;
    StartedInv();
    if steps != [] {
      RunKeepsInv(steps[..|steps| - 1]);
      NextKeepsInv(RunSteps(steps[..|steps| - 1]), steps[|steps| - 1]);
    }
  }

  /** Both queues are FIFO and lose nothing: what came out is a prefix of what went in, and the rest is still there. */
  lemma QueuesAreFifo(steps: seq<Step>)
    ensures var s := RunSteps(steps);
            && s.processed <= s.enqueued && s.enqueued == s.processed + InHand(s) + s.commands
            && s.handled <= s.emitted && s.emitted == s.handled + s.events
  {
    RunKeepsInv(steps);
  }

  /** Once `running` is false at most one more command is processed, in whatever order the threads run. */
  lemma AtMostOneMore(steps: seq<Step>)
    ensures var s := RunSteps(steps);
            !s.running ==> s.processedAtStop.Some?
                           && s.processedAtStop.value <= |s.processed| <= s.processedAtStop.value + 1
  {
    RunKeepsInv(steps);
  }

  /** The worker ends having shut the backend down exactly once if it was initialised, and never otherwise. */
  lemma ShutdownRunsOnce(steps: seq<Step>)
    ensures var s := RunSteps(steps);
            && s.shutdowns <= 1
            && (s.pc.Done? ==> (s.shutdowns == 1 <==> s.initOk))
            && (s.shutdowns == 1 ==> s.pc.Done? && !s.running)
  {
    RunKeepsInv(steps);
  }

  // ----- stopping -----

  /**
   The worker runs until a shutdown command has been processed or `stop` has cleared
   the flag; the queue is stopped only after that; `stop` returns only when the
   worker has ended.
   */
  ghost predicate StopProtocol(s: System) {
    && (s.running <==> ShutdownCommand !in s.processed && (s.stopPc.NotStopping? || s.stopPc.PushedShutdown?))
    && (s.queueStopped <==> s.stopPc.StoppedQueue? || s.stopPc.Joined?)
    && (s.stopPc.Joined? ==> s.pc.Done?)
    && (!s.stopPc.NotStopping? ==> ShutdownCommand in s.enqueued)
  }

  lemma {:induction false} StopKeepsProtocol(steps: seq<Step>)
    ensures StopProtocol(RunSteps(steps))
  {
    hide Next, StopProtocol;
    if steps == [] {
      StartedProtocol();
    } else {
      StopKeepsProtocol(steps[..|steps| - 1]);
      NextKeepsProtocol(RunSteps(steps[..|steps| - 1]), steps[|steps| - 1]);
    }
  }

  lemma StartedProtocol()
    ensures StopProtocol(STARTED)
  {
  }

  lemma NextKeepsProtocol(s: System, step: Step)
    requires StopProtocol(s)
    ensures StopProtocol(Next(s, step))
  {
  }

  function Shutdowns(commands: seq<WorkerCommand>): nat {
    if commands == [] then 0
    else Shutdowns(commands[..|commands| - 1]) + if commands[|commands| - 1] == ShutdownCommand then 1 else 0
  }

  lemma OneMoreCommand(commands: seq<WorkerCommand>, c: WorkerCommand)
    ensures Shutdowns(commands + [c]) == Shutdowns(commands) + if c == ShutdownCommand then 1 else 0
  {
    assert (commands + [c])[..|commands|] == commands;
  }

  /** If nobody else enqueues one, there is one shutdown command, from the moment `stop` begins. */
  lemma {:induction false} StopPushesOnce(steps: seq<Step>)
    requires forall i :: 0 <= i < |steps| ==> steps[i] != Enqueue(ShutdownCommand)
    ensures var s := RunSteps(steps);
            Shutdowns(s.enqueued) == if s.stopPc.NotStopping? then 0 else 1
  {
    hide Shutdowns, Next;
    if steps == [] {
      NoCommands();
    } else {
      StopPushesOnce(steps[..|steps| - 1]);
      PushStep(RunSteps(steps[..|steps| - 1]), steps[|steps| - 1]);
    }
  }

  lemma PushStep(s: System, step: Step)
    requires step != Enqueue(ShutdownCommand)
    ensures var t := Next(s, step);
            Shutdowns(t.enqueued) - Shutdowns(s.enqueued)
            == (if t.stopPc.NotStopping? then 0 else 1) - (if s.stopPc.NotStopping? then 0 else 1)
  {
    hide Shutdowns;
    OneMoreCommand(s.enqueued, ShutdownCommand);
    if step.Enqueue? {
      OneMoreCommand(s.enqueued, step.command);
    }
  }

  lemma NoCommands()
    ensures Shutdowns([]) == 0
  {
  }

  /** What the backend emits at work reaches the queue; between its calls and after the last it emits nothing. */
  lemma EmissionsReachQueue(s: System, e: Event, id: int)
    ensures var next := Next(s, Emit(e));
            && (s.pc in {Initializing, Polling, Processing(BackendCommand(id)), ShuttingDown} ==>
                  next == s.(events := s.events + [e], emitted := s.emitted + [e]))
            && (s.pc in {Checking, Popping, Processing(ShutdownCommand), Done} ==> next == s)
  {
  }

  /** Initialisation is reported as it went, and the loop is entered only after a success. */
  lemma InitialisationIsReported(s: System, ok: bool)
    requires s.pc.Initializing?
    ensures var next := Next(s, InitDone(ok));
            && next.pc == (if ok then Checking else Done)
            && next.events
               == s.events + [if ok then BackendInitialized(true) else ErrorOccurred("initialize", OtherError)]
  {
  }

  // ----- the loop ends -----

  function Distance(pc: WorkerPc): nat {
    match pc
    case Initializing => 5
    case Popping => 4
    case Polling => 3
    case Processing(_) => 3
    case Checking => 2
    case ShuttingDown => 1
    case Done => 0
  }

  /** A step by which the worker leaves the point it is at: every wait in its loop has a time limit. */
  function WorkerStep(pc: WorkerPc): Step {
    match pc
    case Initializing => InitDone(true)
    case Popping => PopDone(true)
    case Polling => PollDone
    case Processing(_) => ProcessDone
    case Checking => Check
    case _ => ShutdownDone
  }

  lemma WorkerCanMove(s: System)
    requires !s.pc.Done?
    ensures Next(s, WorkerStep(s.pc)).pc != s.pc
  {
  }

  /** After `running` is cleared it stays so, and every move of the worker brings its end closer. */
  lemma StoppingConverges(s: System, step: Step)
    requires !s.running
    ensures !Next(s, step).running
    ensures Next(s, step).pc != s.pc ==> Distance(Next(s, step).pc) < Distance(s.pc)
  {
  }

  function RunFrom(s: System, steps: seq<Step>): System
    decreases |steps|
  {
    if steps == [] then s else RunFrom(Next(s, steps[0]), steps[1..])
  }

  /** How often the worker itself moves on during the steps. */
  function WorkerMoves(s: System, steps: seq<Step>): nat
    decreases |steps|
  {
    if steps == [] then 0
    else (if Next(s, steps[0]).pc != s.pc then 1 else 0) + WorkerMoves(Next(s, steps[0]), steps[1..])
  }

  /**
   However the other threads interleave, a worker that should stop makes at most
   five more moves, and ends by the last.
   */
  lemma {:induction false} StoppedWorkerEnds(s: System, steps: seq<Step>)
    requires !s.running
    ensures WorkerMoves(s, steps) <= Distance(s.pc) <= 5
    ensures WorkerMoves(s, steps) == Distance(s.pc) ==> RunFrom(s, steps).pc.Done?
    decreases |steps|
  {
    if steps != [] {
      StoppingConverges(s, steps[0]);
      StoppedWorkerEnds(Next(s, steps[0]), steps[1..]);
    }
  }
}
