/**
 The pairing rendezvous: the agent begins a ceremony and waits, and the script
 thread submits responses, in any interleaving. Each locked section of the
 monitor is one atomic step. On Linux the worker thread runs both the agent, from
 within a poll, and the queued half of a cancellation, so the two share one
 program counter.
 */
module Pairing {
  import opened Text

  datatype Response = Response(accepted: bool, pin: string)

  datatype Monitor = Monitor(response: Option<Response>, address: string, kind: string, displayPin: string)

  const CLEAR: Monitor := Monitor(None, "", "", "")

  /** The monitor as an object; each method body is one locked section. */
  class PairingPendingState {
    var response: Option<Response>
    var address: string
    var kind: string
    var displayPin: string

    function State(): Monitor
      reads this
    {
      Monitor(response, address, kind, displayPin)
    }

    constructor ()
      ensures State() == CLEAR
    {
      response, address, kind, displayPin := None, "", "", "";
    }

    method Begin(a: string, k: string, pin: string)
      modifies this
      ensures State() == Monitor(None, a, k, pin)
    {
      address := a;
      kind := k;
      displayPin := pin;
      response := None;
    }

    /** The moment a wait returns: a response is there, or the time is up. */
    method FinishWait(timedOut: bool) returns (r: Option<Response>)
      requires response.Some? || timedOut
      ensures r == response
    {
      r := response;
    }

    method Submit(r: Response)
      modifies this
      ensures State() == old(State()).(response := Some(r))
    {
      response := Some(r);
    }

    method Reset()
      modifies this
      ensures State() == CLEAR
    {
      address := "";
      kind := "";
      displayPin := "";
      response := None;
    }
  }

  // ----- the agent -----

  datatype Request =
    | PinRequest(path: string)
    | ConfirmRequest(path: string)
    | DisplayRequest(path: string, pin: string)

  datatype Reply = Accept | AcceptPin(pin: string) | Reject

  function BeginKind(request: Request): string {
    match request
    case PinRequest(_) => "provide_pin"
    case ConfirmRequest(_) => "confirm"
    case DisplayRequest(_, _) => "display_pin"
  }

  function BeginPin(request: Request): string {
    if request.DisplayRequest? then request.pin else ""
  }

  function Decision(request: Request, answer: Option<Response>): Reply {
    match request
    case PinRequest(_) =>
      if answer.Some? && answer.value.accepted && answer.value.pin != "" then AcceptPin(answer.value.pin) else Reject
    case ConfirmRequest(_) => if answer.Some? && answer.value.accepted then Accept else Reject
    case DisplayRequest(_, _) => Accept
  }

  /** What may happen to the monitor. */
  datatype Act = Begun(request: Request) | Submitted(response: Response, origin: Submitter) | Cleared

  datatype Submitter = ScriptThread | WorkerThread

  /** The response pending after a history: that of the last act, if it is a submission. */
  function Pending(log: seq<Act>): Option<Response> {
    if log != [] && log[|log| - 1].Submitted? then Some(log[|log| - 1].response) else None
  }

  /**
   The agent's handler for one request, with the acts of other threads that
   fall between its begin and the end of its wait. `attached` says whether the
   agent has been given the pairing state.
   */
  method AgentHandle(pending: PairingPendingState, attached: bool, request: Request, others: seq<Act>, timedOut: bool)
    returns (reply: Reply)
    requires forall act :: act in others ==> !act.Begun?
    requires Pending(others).Some? || timedOut
    modifies pending
    ensures attached ==> reply == Decision(request, Pending(others)) && pending.State() == CLEAR
    ensures !attached ==> reply == if request.PinRequest? then Reject else Accept
  {
    if !attached {
      return if request.PinRequest? then Reject else Accept;
    }
    pending.Begin(request.path, BeginKind(request), BeginPin(request));
    for i := 0 to |others|
      invariant pending.response == Pending(others[..i])
    {
      assert others[i] in others;
      match others[i]
      case Submitted(r, _) => pending.Submit(r);
      case Cleared => pending.Reset();
    }
    assert others[..|others|] == others;
    var answer := pending.FinishWait(timedOut);
    reply := Decision(request, answer);
    pending.Reset();
  }

  // ----- all interleavings -----

  /** Where the worker thread is. The three middle points are in the agent's handler, called from a poll. */
  datatype WorkerPc =
    | Looping
    | InPoll
    | Waiting(request: Request, begunAt: nat)
    | Answered(request: Request, begunAt: nat, answeredAt: nat, answer: Option<Response>, timedOut: bool)
    | Resetting
    | Rejecting  // in `cancel_pairing`, before its submission
    | Clearing   // in `cancel_pairing`, before its reset

  /** A finished ceremony: the acts from `begunAt` to before `answeredAt` happened while it waited. */
  datatype Ceremony = Ceremony(
    request: Request, begunAt: nat, answeredAt: nat, answer: Option<Response>, timedOut: bool, reply: Reply)

  /** `cancels` counts the cancel commands in the worker's queue. */
  datatype System = System(monitor: Monitor, pc: WorkerPc, cancels: nat, log: seq<Act>, done: seq<Ceremony>)

  const START: System := System(CLEAR, Looping, 0, [], [])

  datatype Step =
    | PollBegin
    | PollEnd
    | AgentBegin(request: Request)
    | AgentWake(timedOut: bool)
    | AgentReply
    | AgentReset
    | CancelBegin   // the worker takes a queued cancel
    | CancelReject
    | CancelReset
    | UserSubmit(response: Response)
    | UserQueueCancel

  /** What `cancel_pairing` and `reject_pairing` submit. */
  const REJECTION: Response := Response(false, "")

  function Submit(s: System, r: Response, origin: Submitter): System {
    s.(monitor := s.monitor.(response := Some(r)), log := s.log + [Submitted(r, origin)])
  }

  function Clear(s: System): System {
    s.(monitor := CLEAR, log := s.log + [Cleared])
  }

  /** One atomic step; a step that is not enabled leaves the system as it is. */
  function Next(s: System, step: Step): System {
    match step
    case PollBegin => if s.pc.Looping? then s.(pc := InPoll) else s
    case PollEnd => if s.pc.InPoll? then s.(pc := Looping) else s
    case AgentBegin(request) =>
      if !s.pc.InPoll? then s
      else s.(monitor := Monitor(None, request.path, BeginKind(request), BeginPin(request)),
              pc := Waiting(request, |s.log| + 1), log := s.log + [Begun(request)])
    case AgentWake(timedOut) =>
      if s.pc.Waiting? && (s.monitor.response.Some? || timedOut)
      then s.(pc := Answered(s.pc.request, s.pc.begunAt, |s.log|, s.monitor.response, timedOut)) else s
    case AgentReply =>
      if !s.pc.Answered? then s
      else s.(pc := Resetting,
              done := s.done + [Ceremony(s.pc.request, s.pc.begunAt, s.pc.answeredAt, s.pc.answer, s.pc.timedOut,
                                         Decision(s.pc.request, s.pc.answer))])
    case AgentReset => if s.pc.Resetting? then Clear(s).(pc := InPoll) else s
    case CancelBegin =>
      if s.pc.Looping? && s.cancels > 0 then s.(pc := Rejecting, cancels := s.cancels - 1) else s
    case CancelReject => if s.pc.Rejecting? then Submit(s, REJECTION, WorkerThread).(pc := Clearing) else s
    case CancelReset => if s.pc.Clearing? then Clear(s).(pc := Looping) else s
    case UserSubmit(r) => Submit(s, r, ScriptThread)
    case UserQueueCancel => s.(cancels := s.cancels + 1)
  }

  function RunSteps(steps: seq<Step>): System {
    if steps == [] then START else Next(RunSteps(steps[..|steps| - 1]), steps[|steps| - 1])
  }

  /** The window of a ceremony lies in the log, starts right after its begin, and contains only script submissions. */
  ghost predicate Window(log: seq<Act>, request: Request, begunAt: nat, until: nat) {
    && 1 <= begunAt <= until <= |log| && log[begunAt - 1] == Begun(request)
    && forall i :: begunAt <= i < until ==> log[i].Submitted? && log[i].origin.ScriptThread?
  }

  /** The answer is the response pending at the end of the window; without one the wait timed out. */
  ghost predicate AnswerOf(log: seq<Act>, until: nat, answer: Option<Response>, timedOut: bool) {
    until <= |log| && answer == Pending(log[..until]) && (answer.None? ==> timedOut)
  }

  ghost predicate Fresh(log: seq<Act>, c: Ceremony) {
    && Window(log, c.request, c.begunAt, c.answeredAt)
    && AnswerOf(log, c.answeredAt, c.answer, c.timedOut)
    && c.reply == Decision(c.request, c.answer)
  }

  ghost predicate PcOk(s: System) {
    match s.pc
    case Waiting(request, begunAt) => Window(s.log, request, begunAt, |s.log|)
    case Answered(request, begunAt, answeredAt, answer, timedOut) =>
      Window(s.log, request, begunAt, answeredAt) && AnswerOf(s.log, answeredAt, answer, timedOut)
    case _ => true
  }

  /** Where the next window may start. */
  function WindowStart(s: System): nat {
    if s.pc.Waiting? || s.pc.Answered? then s.pc.begunAt else |s.log| + 1
  }

  ghost predicate SystemInv(s: System) {
    && s.monitor.response == Pending(s.log)
    && PcOk(s)
    && (forall i :: 0 <= i < |s.done| ==> Fresh(s.log, s.done[i]) && s.done[i].answeredAt < WindowStart(s))
    && (forall i, j :: 0 <= i < j < |s.done| ==> s.done[i].answeredAt < s.done[j].begunAt)
  }

  lemma FreshStays(log: seq<Act>, act: Act, c: Ceremony)
    requires Fresh(log, c)
    ensures Fresh(log + [act], c)
  {
    assert (log + [act])[..c.answeredAt] == log[..c.answeredAt];
  }

  /** The log only grows, by one act at a time, and answers already taken stay taken. */
  lemma DoneStaysFresh(s: System, step: Step)
    requires SystemInv(s)
    ensures forall i :: 0 <= i < |s.done| ==> Fresh(Next(s, step).log, s.done[i])
  {
    hide Fresh;
    var t := Next(s, step);
    if t.log != s.log {
      forall i | 0 <= i < |s.done| ensures Fresh(t.log, s.done[i]) {
        FreshStays(s.log, t.log[|s.log|], s.done[i]);
      }
    }
  }

  lemma PcStaysOk(s: System, step: Step)
    requires PcOk(s) && s.monitor.response == Pending(s.log)
    ensures PcOk(Next(s, step)) && Next(s, step).monitor.response == Pending(Next(s, step).log)
  {
    var t := Next(s, step);
    assert s.log[..|s.log|] == s.log;
    if s.pc.Answered? && t.log != s.log {
      assert t.log[..s.pc.answeredAt] == s.log[..s.pc.answeredAt];
    }
  }

  lemma NextKeepsInv(s: System, step: Step)
    requires SystemInv(s)
    ensures SystemInv(Next(s, step))
  {
    DoneStaysFresh(s, step);
    PcStaysOk(s, step);
  }

  lemma {:induction false} RunKeepsSystemInv(steps: seq<Step>)
    ensures SystemInv(RunSteps(steps))
  {
    hide SystemInv, Next;
    if steps != [] {
      RunKeepsSystemInv(steps[..|steps| - 1]);
      NextKeepsInv(RunSteps(steps[..|steps| - 1]), steps[|steps| - 1]);
    } else {
      StartInv();
    }
  }

  lemma StartInv()
    ensures SystemInv(START)
  {
  }

  /**
   Over every interleaving, nothing but submissions of the script thread falls
   between a ceremony's begin and its wake, no reset and no rejection of a queued
   cancel. A ceremony that got an answer got the last of them; without an answer
   it had timed out and there were none.
   */
  lemma AnswersAreFresh(steps: seq<Step>, i: nat)
    requires i < |RunSteps(steps).done|
    ensures var s := RunSteps(steps);
            var c := s.done[i];
            && 1 <= c.begunAt <= c.answeredAt <= |s.log| && s.log[c.begunAt - 1] == Begun(c.request)
            && (forall k :: c.begunAt <= k < c.answeredAt ==> s.log[k].Submitted? && s.log[k].origin.ScriptThread?)
            && (c.answer.Some? ==>
                  c.begunAt < c.answeredAt && s.log[c.answeredAt - 1] == Submitted(c.answer.value, ScriptThread))
            && (c.answer.None? ==> c.timedOut && c.answeredAt == c.begunAt)
  {
    var s := RunSteps(steps);
    RunKeepsSystemInv(steps);
    var c := s.done[i];
    assert Fresh(s.log, c);
    assert s.log[..c.answeredAt][c.answeredAt - 1] == s.log[c.answeredAt - 1];
  }

  /**
   So a confirmation is accepted, and a PIN given, exactly on an accepting last
   submission made during that ceremony; the PIN is that submission's and not
   empty; a ceremony that times out with nothing pending is rejected.
   */
  lemma RepliesAreFresh(steps: seq<Step>, i: nat)
    requires i < |RunSteps(steps).done|
    ensures var s := RunSteps(steps);
            var c := s.done[i];
            && 1 <= c.begunAt <= c.answeredAt <= |s.log|
            && var last := s.log[c.answeredAt - 1];
            var accepted := c.begunAt < c.answeredAt && last.Submitted? && last.response.accepted;
            && (c.request.ConfirmRequest? ==> c.reply == if accepted then Accept else Reject)
            && (c.request.PinRequest? ==>
                  c.reply == if accepted && last.response.pin != "" then AcceptPin(last.response.pin) else Reject)
  {
    AnswersAreFresh(steps, i);
    RunKeepsSystemInv(steps);
    assert Fresh(RunSteps(steps).log, RunSteps(steps).done[i]);
  }

  /** No submission answers two prompts: the windows of ceremonies are disjoint. */
  lemma NoAnswerIsReused(steps: seq<Step>, i: nat, j: nat)
    requires i < j < |RunSteps(steps).done|
    ensures RunSteps(steps).done[i].answeredAt < RunSteps(steps).done[j].begunAt
  {
    RunKeepsSystemInv(steps);
  }

  // ----- what the state shows -----

  /** While a ceremony is on, the state shows its path, kind and PIN; between ceremonies it shows none. */
  ghost predicate Shows(s: System) {
    var m := s.monitor;
    match s.pc
    case Waiting(request, _) =>
      m.address == request.path && m.kind == BeginKind(request) && m.displayPin == BeginPin(request)
    case Answered(request, _, _, _, _) =>
      m.address == request.path && m.kind == BeginKind(request) && m.displayPin == BeginPin(request)
    case Resetting => true
    case _ => m.address == "" && m.kind == "" && m.displayPin == ""
  }

  lemma {:induction false} StateShowsCeremony(steps: seq<Step>)
    ensures Shows(RunSteps(steps))
  {
    hide Next, Shows;
    if steps == [] {
      NothingShown();
    } else {
      StateShowsCeremony(steps[..|steps| - 1]);
      NextShows(RunSteps(steps[..|steps| - 1]), steps[|steps| - 1]);
    }
  }

  lemma NextShows(s: System, step: Step)
    requires Shows(s)
    ensures Shows(Next(s, step))
  {
  }

  lemma NothingShown()
    ensures Shows(START)
  {
  }

  // ----- cancellation -----

  function RunOn(s: System, steps: seq<Step>): System
    decreases |steps|
  {
    if steps == [] then s else RunOn(Next(s, steps[0]), steps[1..])
  }

  /**
   While a ceremony waits, the worker does nothing else, whatever is queued for
   it: until the agent wakes, only a submission of the script thread touches the
   monitor.
   */
  lemma {:induction false} WaitBlocksWorker(s: System, others: seq<Step>)
    requires s.pc.Waiting?
    requires forall step :: step in others ==> !step.AgentWake? && !step.UserSubmit?
    ensures var t := RunOn(s, others);
            t == s.(cancels := t.cancels) && t.cancels >= s.cancels
    decreases |others|
  {
    if others != [] {
      assert others[0] in others;
      WaitBlocksWorker(Next(s, others[0]), others[1..]);
    }
  }

  /**
   A rejection submitted while a ceremony waits ends it, whatever other steps come
   before the agent wakes, cancel commands queued or already waiting included,
   unless the script submits again: the agent needs no timeout to wake, and
   answers a confirmation or PIN request with a rejection. No queued command is
   taken before that.
   */
  lemma CancelEndsCeremony(s: System, others: seq<Step>, timedOut: bool)
    requires s.pc.Waiting?
    requires forall step :: step in others ==> !step.AgentWake? && !step.UserSubmit?
    ensures var cancelled := Next(s, UserSubmit(REJECTION));
            var woken := Next(RunOn(cancelled, others), AgentWake(timedOut));
            var replied := Next(woken, AgentReply);
            && woken.pc.Answered? && woken.pc.answer == Some(REJECTION)
            && replied.cancels >= s.cancels
            && |replied.done| == |s.done| + 1
            && var c := replied.done[|s.done|];
               c.request == s.pc.request && (!c.request.DisplayRequest? ==> c.reply == Reject)
  {
    WaitBlocksWorker(Next(s, UserSubmit(REJECTION)), others);
  }

  function Queued(steps: seq<Step>): nat {
    if steps == [] then 0
    else Queued(steps[..|steps| - 1]) + if steps[|steps| - 1].UserQueueCancel? then 1 else 0
  }

  /** How often the worker has submitted a rejection. */
  function Served(log: seq<Act>): nat {
    if log == [] then 0
    else
      var last := log[|log| - 1];
      Served(log[..|log| - 1]) + if last.Submitted? && last.origin.WorkerThread? then 1 else 0
  }

  lemma OneMoreAct(log: seq<Act>, act: Act)
    ensures Served(log + [act]) == Served(log) + if act.Submitted? && act.origin.WorkerThread? then 1 else 0
  {
    assert (log + [act])[..|log|] == log;
  }

  /** No cancel command is lost or served twice: each is queued, being served, or has submitted its rejection. */
  lemma {:induction false} CancelsAreServed(steps: seq<Step>)
    ensures var s := RunSteps(steps);
            Queued(steps) == s.cancels + (if s.pc.Rejecting? then 1 else 0) + Served(s.log)
  {
    if steps != [] {
      CancelsAreServed(steps[..|steps| - 1]);
      ServedStep(RunSteps(steps[..|steps| - 1]), steps[|steps| - 1]);
    }
  }

  lemma ServedStep(s: System, step: Step)
    ensures var t := Next(s, step);
            t.cancels + (if t.pc.Rejecting? then 1 else 0) + Served(t.log)
            == s.cancels + (if s.pc.Rejecting? then 1 else 0) + Served(s.log)
               + if step.UserQueueCancel? then 1 else 0
  {
    hide Served;
    var t := Next(s, step);
    if t.log != s.log {
      OneMoreAct(s.log, t.log[|s.log|]);
      assert t.log == s.log + [t.log[|s.log|]];
    }
  }

  /** In every run a ceremony whose last submission is a rejection is answered by a rejection. */
  lemma RejectionIsFinal(steps: seq<Step>, i: nat)
    requires i < |RunSteps(steps).done|
    ensures var s := RunSteps(steps);
            var c := s.done[i];
            && 1 <= c.begunAt <= c.answeredAt <= |s.log|
            && var last := s.log[c.answeredAt - 1];
               var rejected := c.begunAt < c.answeredAt && last.Submitted? && !last.response.accepted;
               rejected && !c.request.DisplayRequest? ==> c.reply == Reject
  {
    AnswersAreFresh(steps, i);
    RepliesAreFresh(steps, i);
  }
}
