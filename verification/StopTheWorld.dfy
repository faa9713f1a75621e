/** The signal-based stop-the-world handshake of native/linux/stoptheworld_probe.c, run under the tracer loop of
    native/linux/rcc_seccomp.c: one collector, any number of workers and rounds, signals that do not queue. */
module StopTheWorld {
  const SIGTRAP := 5
  const SIGSTOP := 19
  const SIGTSTP := 20
  const SIGTTIN := 21
  const SIGTTOU := 22
  const SIGPWR := 30
  const EVENT_FORK := 1
  const EVENT_VFORK := 2
  const EVENT_CLONE := 3
  const EVENT_SECCOMP := 7

  /** What `waitpid` reports of a stopped tracee. */
  datatype Stop = Stop(event: int, sig: int)

  /** The loop as it stands, and as it stood before its fix, when the signal went into the ignored argument of
      PTRACE_CONT. */
  datatype Tracer = Reinjecting | Dropping

  /** The signal the tracer resumes a stopped tracee with; 0 delivers none. */
  function Injected(tracer: Tracer, stop: Stop): int {
    if stop.event == EVENT_SECCOMP then 0
    else if stop.event == EVENT_FORK || stop.event == EVENT_VFORK || stop.event == EVENT_CLONE then 0
    else if stop.sig == SIGTRAP then 0
    else if stop.sig == SIGSTOP || stop.sig == SIGTSTP || stop.sig == SIGTTIN || stop.sig == SIGTTOU then 0
    else if tracer.Dropping? then 0
    else stop.sig
  }

  /** The numbers the tracer takes for traps and group stops and keeps to itself. */
  predicate Swallowed(sig: int) { sig == 5 || 19 <= sig <= 22 }

  /** A stop in which no signal is on its way to the tracee. */
  predicate Idle(stop: Stop) {
    stop.event == 1 || stop.event == 2 || stop.event == 3 || stop.event == 7 || (stop.event == 0 && Swallowed(stop.sig))
  }

  /** Whatever signal a tracee is stopped with on its way, the tracer resumes it with that very signal, unless it is one
      of the five it keeps; and a stop of another kind delivers nothing. */
  lemma InjectedIff(stop: Stop)
    ensures Injected(Reinjecting, stop)
         == if stop.event in {1, 2, 3, 7} || stop.sig == 5 || 19 <= stop.sig <= 22 then 0 else stop.sig
    ensures Injected(Dropping, stop) == 0
  {
  }

  /** Where a worker stands: in its sleep loop, at one of the points of its signal handler, or gone. */
  datatype Place = Asleep | Entered | Acked | Released | Leaving | Exited

  datatype Worker = Worker(
    at: Place,
    pending: bool,         // SIGPWR is pending; a second one would be lost
    halted: Halt,          // stopped, waiting for the tracer
    acked: nat,            // the three semaphores
    resume: nat,
    resumed: nat,
    noise: nat,            // stops with nothing to deliver, and signals from elsewhere, still to come
    others: set<int>,      // signals other than SIGPWR that are pending; each number once
    given: multiset<int>,  // those that have become pending
    handled: multiset<int>,
    sent: nat,             // signals sent to this worker
    entries: nat,          // how often each point of the handler has been passed
    acks: nat,
    wakes: nat,
    leaves: nat)

  datatype Halt = Running | Halted(stop: Stop)

  datatype Phase =
    | Suspend(i: nat) | AwaitAck(i: nat) | PostResume(i: nat) | AwaitResumed(i: nat)
    | StopAll | Join(i: nat) | Done

  datatype State = State(rounds: nat, round: nat, phase: Phase, running: bool, ws: seq<Worker>)

  datatype Step = Collector | Deliver(i: nat) | Trace(i: nat) | Handler(i: nat) | Exit(i: nat)
                | Noise(i: nat, stop: Stop) | Raise(i: nat, sig: int) | DeliverOther(i: nat, sig: int)

  /** The start: at least one worker and one round, all workers asleep, any number of idle stops ahead. */
  ghost predicate Init(s: State) {
    && s.rounds > 0 && s.round == 0 && s.phase == Suspend(0) && s.running && s.ws != []
    && forall i :: 0 <= i < |s.ws| ==>
         s.ws[i] == Worker(Asleep, false, Running, 0, 0, 0, s.ws[i].noise, {}, multiset{}, multiset{}, 0, 0, 0, 0, 0)
  }

  predicate Free(s: State, i: nat) { i < |s.ws| && s.ws[i].halted.Running? }

  predicate CollectorReady(s: State) {
    match s.phase
    case Suspend(i) => i < |s.ws|
    case AwaitAck(i) => i < |s.ws| && s.ws[i].acked > 0
    case PostResume(i) => i < |s.ws|
    case AwaitResumed(i) => i < |s.ws| && s.ws[i].resumed > 0
    case StopAll => true
    case Join(i) => i < |s.ws| && s.ws[i].at.Exited?
    case Done => false
  }

  predicate Enabled(tracer: Tracer, s: State, step: Step) {
    match step
    case Collector => CollectorReady(s)
    case Deliver(i) => Free(s, i) && s.ws[i].at.Asleep? && s.ws[i].pending
    case Trace(i) => i < |s.ws| && s.ws[i].halted.Halted?
    case Handler(i) =>
      && Free(s, i)
      && (s.ws[i].at.Entered? || (s.ws[i].at.Acked? && s.ws[i].resume > 0) || s.ws[i].at.Released?
          || s.ws[i].at.Leaving?)
    case Exit(i) => Free(s, i) && s.ws[i].at.Asleep? && !s.running
    case Noise(i, stop) => Free(s, i) && !s.ws[i].at.Exited? && s.ws[i].noise > 0 && Idle(stop)
    case Raise(i, sig) => i < |s.ws| && !s.ws[i].at.Exited? && s.ws[i].noise > 0 && sig > 0 && sig != SIGPWR
    case DeliverOther(i, sig) => Free(s, i) && !s.ws[i].at.Exited? && sig in s.ws[i].others
  }

  /** `for i` steps: the next index, or the next phase after the last. */
  function Next(i: nat, n: nat, same: Phase, after: Phase): Phase { if i + 1 < n then same else after }

  function SendSignal(w: Worker): Worker { w.(pending := true, sent := w.sent + 1) }

  function CollectorStep(s: State): State
    requires CollectorReady(s)
  {
    var n := |s.ws|;
    match s.phase
    case Suspend(i) =>
      s.(ws := s.ws[i := SendSignal(s.ws[i])], phase := Next(i, n, Suspend(i + 1), AwaitAck(0)))
    case AwaitAck(i) =>
      s.(ws := s.ws[i := s.ws[i].(acked := s.ws[i].acked - 1)], phase := Next(i, n, AwaitAck(i + 1), PostResume(0)))
    case PostResume(i) =>
      s.(ws := s.ws[i := s.ws[i].(resume := s.ws[i].resume + 1)],
         phase := Next(i, n, PostResume(i + 1), AwaitResumed(0)))
    case AwaitResumed(i) =>
      var t := s.(ws := s.ws[i := s.ws[i].(resumed := s.ws[i].resumed - 1)]);
      if i + 1 < n then t.(phase := AwaitResumed(i + 1))
      else t.(round := s.round + 1, phase := if s.round + 1 < s.rounds then Suspend(0) else StopAll)
    case StopAll => s.(running := false, phase := Join(0))
    case Join(i) => s.(phase := Next(i, n, Join(i + 1), Done))
  }

  function HandlerStep(w: Worker): Worker
    requires w.at.Acked? ==> w.resume > 0
  {
    match w.at
    case Entered => w.(at := Acked, acked := w.acked + 1, acks := w.acks + 1)
    case Acked => w.(at := Released, resume := w.resume - 1, wakes := w.wakes + 1)
    case Released => w.(at := Leaving, resumed := w.resumed + 1, leaves := w.leaves + 1)
    case Leaving => w.(at := Asleep)
    case _ => w
  }

  /** A signal sent to a tracee that has it pending already is not noticed. */
  function RaiseSignal(w: Worker, sig: int): Worker {
    var v := w.(noise := if w.noise > 0 then w.noise - 1 else 0);
    if sig in w.others then v else v.(others := w.others + {sig}, given := w.given + multiset{sig})
  }

  /** PTRACE_CONT with a signal runs its handler; without one the tracee goes on where it was. Handlers of other signals
      are over at once. */
  function Resume(tracer: Tracer, w: Worker): Worker
    requires w.halted.Halted?
  {
    var sig := Injected(tracer, w.halted.stop);
    if sig == SIGPWR then w.(halted := Running, at := Entered, entries := w.entries + 1)
    else if sig != 0 then w.(halted := Running, handled := w.handled + multiset{sig})
    else w.(halted := Running)
  }

  function Apply(tracer: Tracer, s: State, step: Step): State
    requires Enabled(tracer, s, step)
  {
    match step
    case Collector => CollectorStep(s)
    case Deliver(i) => s.(ws := s.ws[i := s.ws[i].(pending := false, halted := Halted(Stop(0, SIGPWR)))])
    case Trace(i) => s.(ws := s.ws[i := Resume(tracer, s.ws[i])])
    case Handler(i) => s.(ws := s.ws[i := HandlerStep(s.ws[i])])
    case Exit(i) => s.(ws := s.ws[i := s.ws[i].(at := Exited)])
    case Noise(i, stop) => s.(ws := s.ws[i := s.ws[i].(halted := Halted(stop), noise := s.ws[i].noise - 1)])
    case Raise(i, sig) => s.(ws := s.ws[i := RaiseSignal(s.ws[i], sig)])
    case DeliverOther(i, sig) =>
      s.(ws := s.ws[i := s.ws[i].(others := s.ws[i].others - {sig}, halted := Halted(Stop(0, sig)))])
  }

  ghost predicate IsRun(tracer: Tracer, states: seq<State>, steps: seq<Step>) {
    && |states| == |steps| + 1
    && Init(states[0])
    && forall k :: 0 <= k < |steps| ==>
         Enabled(tracer, states[k], steps[k]) && states[k + 1] == Apply(tracer, states[k], steps[k])
  }

  // ---- the invariant -----------------------------------------------------------------------------------

  /** A SIGPWR stop: the signal has left the pending set and is in the tracer's hands. */
  predicate SignalStopped(w: Worker) { w.halted.Halted? && Injected(Reinjecting, w.halted.stop) == SIGPWR }

  function InFlight(w: Worker): nat { (if w.pending then 1 else 0) + (if SignalStopped(w) then 1 else 0) }

  /** How often the collector has passed each of its four loops for worker `i`. */
  function Sends(s: State, i: nat): nat {
    match s.phase
    case Suspend(j) => s.round + if i < j then 1 else 0
    case AwaitAck(_) => s.round + 1
    case PostResume(_) => s.round + 1
    case AwaitResumed(_) => s.round + 1
    case _ => s.round
  }

  function AcksTaken(s: State, i: nat): nat {
    match s.phase
    case AwaitAck(j) => s.round + if i < j then 1 else 0
    case PostResume(_) => s.round + 1
    case AwaitResumed(_) => s.round + 1
    case _ => s.round
  }

  function Posts(s: State, i: nat): nat {
    match s.phase
    case PostResume(j) => s.round + if i < j then 1 else 0
    case AwaitResumed(_) => s.round + 1
    case _ => s.round
  }

  function ResumesTaken(s: State, i: nat): nat {
    match s.phase
    case AwaitResumed(j) => s.round + if i < j then 1 else 0
    case _ => s.round
  }

  predicate PhaseInv(s: State) {
    var n := |s.ws|;
    && n > 0
    && s.round <= s.rounds
    && (match s.phase
        case Suspend(i) => i < n && s.round < s.rounds && s.running
        case AwaitAck(i) => i < n && s.round < s.rounds && s.running
        case PostResume(i) => i < n && s.round < s.rounds && s.running
        case AwaitResumed(i) => i < n && s.round < s.rounds && s.running
        case StopAll => s.round == s.rounds && s.running
        case Join(i) => i < n && s.round == s.rounds && !s.running
        case Done => s.round == s.rounds && !s.running)
  }

  /** A worker's handler counters fit its place, */
  predicate PlaceInv(w: Worker) {
    && w.entries == w.acks + (if w.at.Entered? then 1 else 0)
    && w.acks == w.wakes + (if w.at.Acked? then 1 else 0)
    && w.wakes == w.leaves + (if w.at.Released? then 1 else 0)
    && (SignalStopped(w) ==> w.at.Asleep? && w.halted.stop == Stop(0, SIGPWR))
    && (w.at.Exited? ==> w.halted.Running?)
    && SIGPWR !in w.others
  }

  /** How often a signal other than SIGPWR is on its way to a worker. */
  function OnItsWay(w: Worker, sig: int): nat {
    (if sig in w.others then 1 else 0)
    + (if w.halted.Halted? && w.halted.stop == Stop(0, sig) then 1 else 0)
  }

  /** Every other signal that became pending has been handled or is on its way, unless the tracer keeps that number. */
  ghost predicate RelayInv(w: Worker) {
    && (w.halted.Halted? ==> Idle(w.halted.stop) || w.halted.stop.event == 0)
    && w.handled[0] == 0
    && forall sig :: sig > 0 && sig != SIGPWR ==>
      if Swallowed(sig) then w.handled[sig] == 0 else w.given[sig] == w.handled[sig] + OnItsWay(w, sig)
  }

  /** its semaphores are what has been posted less what has been taken, and every signal sent has been handled
      or is in flight. */
  predicate WorkerInv(w: Worker, sends: nat, acksTaken: nat, posts: nat, resumesTaken: nat) {
    && w.sent == sends == w.entries + InFlight(w)
    && w.acked == w.acks - acksTaken
    && w.resume == posts - w.wakes
    && w.resumed == w.leaves - resumesTaken
  }

  predicate WorkerAtInv(s: State, i: nat)
    requires i < |s.ws|
  {
    && PlaceInv(s.ws[i])
    && WorkerInv(s.ws[i], Sends(s, i), AcksTaken(s, i), Posts(s, i), ResumesTaken(s, i))
    && (s.ws[i].at.Exited? ==> !s.running)
  }

  predicate WorkersInv(s: State) { forall i :: 0 <= i < |s.ws| ==> WorkerAtInv(s, i) }

  predicate JoinInv(s: State) {
    && (s.phase.Join? ==> forall i :: 0 <= i < s.phase.i && i < |s.ws| ==> s.ws[i].at.Exited?)
    && (s.phase.Done? ==> forall i :: 0 <= i < |s.ws| ==> s.ws[i].at.Exited?)
  }

  predicate Inv(s: State) { PhaseInv(s) && WorkersInv(s) && JoinInv(s) }

  // ---- every step keeps the invariant ------------------------------------------------------------------

  lemma InitHasInv(s: State)
    requires Init(s)
    ensures Inv(s)
  {
  }

  lemma HandlerKeepsWorker(w: Worker, a: nat, b: nat, c: nat, d: nat)
    requires PlaceInv(w) && WorkerInv(w, a, b, c, d) && w.halted.Running?
    requires w.at.Acked? ==> w.resume > 0
    ensures PlaceInv(HandlerStep(w)) && WorkerInv(HandlerStep(w), a, b, c, d)
  {
  }

  lemma DeliverKeepsWorker(w: Worker, a: nat, b: nat, c: nat, d: nat)
    requires PlaceInv(w) && WorkerInv(w, a, b, c, d) && w.halted.Running? && w.at.Asleep? && w.pending
    ensures var v := w.(pending := false, halted := Halted(Stop(0, SIGPWR)));
            PlaceInv(v) && WorkerInv(v, a, b, c, d)
  {
  }

  /** The tracer hands a stopped worker its signal: one signal less in flight, one handler entry more. */
  lemma TraceKeepsWorker(w: Worker, a: nat, b: nat, c: nat, d: nat)
    requires PlaceInv(w) && WorkerInv(w, a, b, c, d) && w.halted.Halted?
    ensures PlaceInv(Resume(Reinjecting, w)) && WorkerInv(Resume(Reinjecting, w), a, b, c, d)
  {
  }

  lemma NoiseKeepsWorker(w: Worker, stop: Stop, a: nat, b: nat, c: nat, d: nat)
    requires PlaceInv(w) && WorkerInv(w, a, b, c, d) && w.halted.Running? && w.noise > 0
    requires Idle(stop) && !w.at.Exited?
    ensures var v := w.(halted := Halted(stop), noise := w.noise - 1);
            PlaceInv(v) && WorkerInv(v, a, b, c, d)
  {
  }

  lemma RaiseKeepsWorker(w: Worker, sig: int, a: nat, b: nat, c: nat, d: nat)
    requires PlaceInv(w) && WorkerInv(w, a, b, c, d) && sig != SIGPWR && w.noise > 0
    ensures PlaceInv(RaiseSignal(w, sig)) && WorkerInv(RaiseSignal(w, sig), a, b, c, d)
    ensures RaiseSignal(w, sig).at == w.at
  {
    hide Injected;
  }

  lemma DeliverOtherKeepsWorker(w: Worker, sig: int, a: nat, b: nat, c: nat, d: nat)
    requires PlaceInv(w) && WorkerInv(w, a, b, c, d) && w.halted.Running? && sig in w.others && !w.at.Exited?
    ensures var v := w.(others := w.others - {sig}, halted := Halted(Stop(0, sig)));
            PlaceInv(v) && WorkerInv(v, a, b, c, d)
  {
  }

  lemma OthersKeepInv(s: State, t: State, i: nat)
    requires Inv(s) && i < |s.ws| && !s.ws[i].at.Exited?
    requires |t.ws| == |s.ws| && t == s.(ws := s.ws[i := t.ws[i]])
    requires WorkerAtInv(t, i)
    ensures Inv(t)
  {
    forall j | 0 <= j < |t.ws|
      ensures WorkerAtInv(t, j)
    {
      assert WorkerAtInv(s, j);
    }
  }

  lemma WorkerStepKeepsWorker(s: State, step: Step)
    requires Inv(s) && Enabled(Reinjecting, s, step) && !step.Collector?
    ensures WorkerAtInv(Apply(Reinjecting, s, step), step.i)
    ensures !s.ws[step.i].at.Exited?
  {
    hide WorkersInv, WorkerInv, PlaceInv, JoinInv, Resume, HandlerStep, Sends, AcksTaken, Posts, ResumesTaken;
    var i := step.i;
    WorkerOfInv(s, i);
    var w, a, b, c, d := s.ws[i], Sends(s, i), AcksTaken(s, i), Posts(s, i), ResumesTaken(s, i);
    SameCounts(s, Apply(Reinjecting, s, step), i);
    match step
    case Deliver(_) => DeliverKeepsWorker(w, a, b, c, d);
    case Trace(_) => TraceKeepsWorker(w, a, b, c, d); ResumeKeepsExit(w);
    case Handler(_) => HandlerKeepsWorker(w, a, b, c, d); HandlerNeverExits(w);
    case Noise(_, stop) => NoiseKeepsWorker(w, stop, a, b, c, d);
    case Raise(_, sig) => RaiseKeepsWorker(w, sig, a, b, c, d);
    case DeliverOther(_, sig) => DeliverOtherKeepsWorker(w, sig, a, b, c, d);
    case Exit(_) => ExitKeepsWorker(w, a, b, c, d);
  }

  lemma ExitKeepsWorker(w: Worker, a: nat, b: nat, c: nat, d: nat)
    requires PlaceInv(w) && WorkerInv(w, a, b, c, d) && w.halted.Running? && w.at.Asleep?
    ensures PlaceInv(w.(at := Exited)) && WorkerInv(w.(at := Exited), a, b, c, d)
  {
  }

  lemma SameCounts(s: State, t: State, i: nat)
    requires s.phase == t.phase && s.round == t.round
    ensures Sends(t, i) == Sends(s, i) && AcksTaken(t, i) == AcksTaken(s, i)
    ensures Posts(t, i) == Posts(s, i) && ResumesTaken(t, i) == ResumesTaken(s, i)
  {
  }

  lemma WorkerStepKeepsInv(s: State, step: Step)
    requires Inv(s) && Enabled(Reinjecting, s, step) && !step.Collector?
    ensures Inv(Apply(Reinjecting, s, step))
  {
    hide Inv, Resume, HandlerStep, WorkerAtInv;
    WorkerStepKeepsWorker(s, step);
    OthersKeepInv(s, Apply(Reinjecting, s, step), step.i);
  }

  lemma WorkerOfInv(s: State, i: nat)
    requires WorkersInv(s) && i < |s.ws|
    ensures WorkerAtInv(s, i)
  {
  }

  lemma ResumeKeepsExit(w: Worker)
    requires PlaceInv(w) && w.halted.Halted?
    ensures !w.at.Exited? && !Resume(Reinjecting, w).at.Exited?
  {
  }

  lemma HandlerNeverExits(w: Worker)
    requires !w.at.Exited? && (w.at.Acked? ==> w.resume > 0)
    ensures !HandlerStep(w).at.Exited?
  {
  }

  /** When the collector is about to signal a worker, that worker has handled every earlier signal and has left its
      handler's last post behind: nothing of it is in flight, so the new signal cannot be lost in an old one. */
  lemma NothingInFlightAtSuspend(s: State)
    requires Inv(s) && s.phase.Suspend?
    ensures var w := s.ws[s.phase.i];
            !w.pending && InFlight(w) == 0 && (w.at.Asleep? || w.at.Leaving?)
  {
    WorkerOfInv(s, s.phase.i);
  }

  lemma CollectorKeepsWorker(s: State, j: nat)
    requires Inv(s) && CollectorReady(s) && j < |s.ws|
    requires s.phase.Suspend? ==> !s.ws[s.phase.i].pending
    ensures WorkerAtInv(CollectorStep(s), j)
  {
    hide PlaceInv, WorkersInv;
    WorkerOfInv(s, j);
    CollectorKeepsPlace(s, j);
    hide InFlight;
    assert InFlight(CollectorStep(s).ws[j]) == InFlight(s.ws[j])
                                            + if s.phase.Suspend? && s.phase.i == j then 1 else 0 by {
      CollectorFlight(s, j);
    }
  }

  lemma CollectorFlight(s: State, j: nat)
    requires CollectorReady(s) && j < |s.ws|
    requires s.phase.Suspend? ==> !s.ws[s.phase.i].pending
    ensures InFlight(CollectorStep(s).ws[j]) == InFlight(s.ws[j])
                                             + if s.phase.Suspend? && s.phase.i == j then 1 else 0
  {
  }

  lemma CollectorKeepsPlace(s: State, j: nat)
    requires CollectorReady(s) && j < |s.ws| && PlaceInv(s.ws[j])
    ensures PlaceInv(CollectorStep(s).ws[j])
    ensures CollectorStep(s).ws[j].at == s.ws[j].at
  {
  }

  lemma CollectorKeepsPhase(s: State)
    requires PhaseInv(s) && JoinInv(s) && CollectorReady(s)
    ensures PhaseInv(CollectorStep(s)) && JoinInv(CollectorStep(s))
  {
  }

  lemma CollectorKeepsInv(s: State)
    requires Inv(s) && CollectorReady(s)
    ensures Inv(CollectorStep(s))
  {
    hide WorkerAtInv, CollectorStep;
    var t := CollectorStep(s);
    if s.phase.Suspend? {
      NothingInFlightAtSuspend(s);
    }
    CollectorKeepsPhase(s);
    forall j | 0 <= j < |t.ws|
      ensures WorkerAtInv(t, j)
    {
      SameWorkers(s);
      CollectorKeepsWorker(s, j);
    }
  }

  lemma SameWorkers(s: State)
    requires CollectorReady(s)
    ensures |CollectorStep(s).ws| == |s.ws|
  {
  }

  lemma StepKeepsInv(s: State, step: Step)
    requires Inv(s) && Enabled(Reinjecting, s, step)
    ensures Inv(Apply(Reinjecting, s, step))
  {
    hide Inv, CollectorStep;
    if step.Collector? {
      CollectorKeepsInv(s);
    } else {
      WorkerStepKeepsInv(s, step);
    }
  }

  lemma {:induction false} RunKeepsInv(states: seq<State>, steps: seq<Step>, k: nat)
    requires IsRun(Reinjecting, states, steps) && k < |states|
    ensures Inv(states[k])
  {
    hide Inv, Init, Enabled, Apply;
    if k == 0 {
      InitHasInv(states[0]);
    } else {
      RunKeepsInv(states, steps, k - 1);
      StepKeepsInv(states[k - 1], steps[k - 1]);
      assert states[k] == Apply(Reinjecting, states[k - 1], steps[k - 1]);
    }
  }

  // ---- what a run guarantees ---------------------------------------------------------------------------

  /** In every reachable state, for every worker: signals sent are handler entries plus signals in flight, and at
      most one is in flight. */
  lemma SignalsAreConserved(states: seq<State>, steps: seq<Step>, k: nat, i: nat)
    requires IsRun(Reinjecting, states, steps) && k < |states| && i < |states[k].ws|
    ensures states[k].ws[i].sent == states[k].ws[i].entries + InFlight(states[k].ws[i])
    ensures InFlight(states[k].ws[i]) <= 1
  {
    hide IsRun, PlaceInv;
    RunKeepsInv(states, steps, k);
    WorkerOfInv(states[k], i);
    HandlerOrder(states[k].ws[i]);
  }

  lemma RelayKept(w: Worker, v: Worker)
    requires RelayInv(w) && v.given == w.given && v.handled == w.handled && v.others == w.others
    requires v.halted == w.halted
    ensures RelayInv(v)
  {
  }

  lemma StepKeepsRelay(s: State, step: Step, i: nat)
    requires Inv(s) && Enabled(Reinjecting, s, step) && i < |s.ws| && RelayInv(s.ws[i])
    ensures |Apply(Reinjecting, s, step).ws| == |s.ws| && RelayInv(Apply(Reinjecting, s, step).ws[i])
  {
    hide Inv, Next, RelayInv, Injected, HandlerStep, Resume, RaiseSignal, CollectorStep;
    var t := Apply(Reinjecting, s, step);
    if step.Collector? {
      CollectorKeepsRelay(s, i);
    } else if step.i == i {
      OwnStepKeepsRelay(s, step);
    } else {
      assert t.ws[i] == s.ws[i];
    }
  }

  lemma CollectorKeepsRelay(s: State, i: nat)
    requires CollectorReady(s) && i < |s.ws| && RelayInv(s.ws[i])
    ensures |CollectorStep(s).ws| == |s.ws| && RelayInv(CollectorStep(s).ws[i])
  {
    hide RelayInv;
    RelayKept(s.ws[i], CollectorStep(s).ws[i]);
  }

  lemma OwnStepKeepsRelay(s: State, step: Step)
    requires Inv(s) && !step.Collector? && Enabled(Reinjecting, s, step) && RelayInv(s.ws[step.i])
    ensures RelayInv(Apply(Reinjecting, s, step).ws[step.i])
  {
    hide Inv, Injected, HandlerStep, Resume, RaiseSignal, RelayInv, Idle;
    var w := s.ws[step.i];
    match step
    case Trace(_) => TraceKeepsRelay(w);
    case Raise(_, sig) => RaiseKeepsRelay(w, sig);
    case DeliverOther(_, sig) => DeliverOtherKeepsRelay(w, sig);
    case Handler(_) => HandlerKeepsRelay(w);
    case Deliver(_) => StopKeepsRelay(w, w.(pending := false, halted := Halted(Stop(0, SIGPWR))));
    case Noise(_, stop) => IdleKeepsRelay(w, stop);
    case Exit(_) => RelayKept(w, w.(at := Exited));
  }

  lemma TraceKeepsRelay(w: Worker)
    requires RelayInv(w) && w.halted.Halted?
    ensures RelayInv(Resume(Reinjecting, w))
  {
    hide Injected;
    InjectedIff(w.halted.stop);
  }

  lemma RaiseKeepsRelay(w: Worker, sig: int)
    requires RelayInv(w)
    ensures RelayInv(RaiseSignal(w, sig))
  {
  }

  lemma DeliverOtherKeepsRelay(w: Worker, sig: int)
    requires RelayInv(w) && w.halted.Running? && sig in w.others
    ensures RelayInv(w.(others := w.others - {sig}, halted := Halted(Stop(0, sig))))
  {
  }

  lemma HandlerKeepsRelay(w: Worker)
    requires RelayInv(w) && (w.at.Acked? ==> w.resume > 0)
    ensures RelayInv(HandlerStep(w))
  {
    hide RelayInv;
    RelayKept(w, HandlerStep(w));
  }

  lemma StopKeepsRelay(w: Worker, v: Worker)
    requires RelayInv(w) && w.halted.Running? && v.halted == Halted(Stop(0, SIGPWR))
    requires v.given == w.given && v.handled == w.handled && v.others == w.others
    ensures RelayInv(v)
  {
  }

  lemma IdleKeepsRelay(w: Worker, stop: Stop)
    requires RelayInv(w) && w.halted.Running? && Idle(stop) && w.noise > 0
    ensures RelayInv(w.(halted := Halted(stop), noise := w.noise - 1))
  {
  }

  lemma {:induction false} RunKeepsRelay(states: seq<State>, steps: seq<Step>, k: nat, i: nat)
    requires IsRun(Reinjecting, states, steps) && k < |states| && i < |states[k].ws|
    ensures RelayInv(states[k].ws[i])
  {
    hide Enabled, Apply, Inv, RelayInv;
    if k == 0 {
      StartKeepsRelay(states[0], i);
    } else {
      RunKeepsInv(states, steps, k - 1);
      SameNumber(states[k - 1], steps[k - 1]);
      RunKeepsRelay(states, steps, k - 1, i);
      StepKeepsRelay(states[k - 1], steps[k - 1], i);
    }
  }

  lemma StartKeepsRelay(s: State, i: nat)
    requires Init(s) && i < |s.ws|
    ensures RelayInv(s.ws[i])
  {
  }

  lemma SameNumber(s: State, step: Step)
    requires Enabled(Reinjecting, s, step)
    ensures |Apply(Reinjecting, s, step).ws| == |s.ws|
  {
  }

  /** The same for every other signal a worker is sent, in every reachable state and number by number: each one that
      became pending has reached its handler or is on its way, and nothing else has; the tracer loses none but the five
      numbers it keeps to itself, and those never reach a handler. */
  lemma OtherSignalsAreConserved(states: seq<State>, steps: seq<Step>, k: nat, i: nat, sig: int)
    requires IsRun(Reinjecting, states, steps) && k < |states| && i < |states[k].ws|
    requires sig > 0 && sig != SIGPWR
    ensures states[k].ws[i].handled[0] == 0
    ensures var w := states[k].ws[i];
            if sig == 5 || 19 <= sig <= 22 then w.handled[sig] == 0
            else w.given[sig] == w.handled[sig] + OnItsWay(w, sig)
  {
    hide IsRun, OnItsWay;
    RunKeepsRelay(states, steps, k, i);
  }

  /** And such a signal does get there: sent to a running worker that has none of that number pending, it becomes
      pending, stops the worker on its way, and is handed over by the tracer. */
  lemma OtherSignalGetsThrough(s: State, i: nat, sig: int)
    requires i < |s.ws| && s.ws[i].halted.Running? && !s.ws[i].at.Exited? && s.ws[i].noise > 0
    requires sig > 0 && sig != SIGPWR && sig !in s.ws[i].others
    ensures Enabled(Reinjecting, s, Raise(i, sig))
    ensures var t := Apply(Reinjecting, s, Raise(i, sig));
            && sig in t.ws[i].others && Enabled(Reinjecting, t, DeliverOther(i, sig))
            && var u := Apply(Reinjecting, t, DeliverOther(i, sig));
               && u.ws[i].halted == Halted(Stop(0, sig)) && Enabled(Reinjecting, u, Trace(i))
               && var v := Apply(Reinjecting, u, Trace(i)).ws[i];
                  && v.halted.Running? && v.others == s.ws[i].others
                  && v.handled == s.ws[i].handled + if sig == 5 || 19 <= sig <= 22 then multiset{} else multiset{sig}
  {
    hide Injected;
    InjectedIff(Stop(0, sig));
    assert (s.ws[i].others + {sig}) - {sig} == s.ws[i].others;
    assert s.ws[i].handled + multiset{} == s.ws[i].handled;
  }

  lemma HandlerOrder(w: Worker)
    requires PlaceInv(w)
    ensures w.entries >= w.acks >= w.wakes >= w.leaves >= w.entries - 1
  {
  }

  /** The world is stopped: from the moment every ack of a round is taken until a worker's resume is posted, that
      worker is parked in its handler, with no signal in flight. */
  lemma WorldIsStopped(states: seq<State>, steps: seq<Step>, k: nat, i: nat)
    requires IsRun(Reinjecting, states, steps) && k < |states|
    requires states[k].phase.PostResume? && states[k].phase.i <= i < |states[k].ws|
    ensures states[k].ws[i].at == Acked && states[k].ws[i].resume == 0
    ensures InFlight(states[k].ws[i]) == 0
  {
    hide IsRun;
    RunKeepsInv(states, steps, k);
    WorkerOfInv(states[k], i);
  }

  /** A run that is done has stopped the world exactly once per round, for every worker. */
  lemma DoneMeansAllRounds(states: seq<State>, steps: seq<Step>, k: nat, i: nat)
    requires IsRun(Reinjecting, states, steps) && k < |states| && i < |states[k].ws|
    requires states[k].phase.Done?
    ensures states[k].ws[i].at == Exited
    ensures states[k].ws[i].entries == states[k].ws[i].leaves == states[k].rounds
  {
    hide IsRun;
    RunKeepsInv(states, steps, k);
    WorkerOfInv(states[k], i);
  }

  // ---- no deadlock -------------------------------------------------------------------------------------

  function RoundsWork(rounds: nat, n: nat): nat {
    if rounds == 0 then 0 else 4 * n + RoundsWork(rounds - 1, n)
  }

  /** Steps the collector has still to take. */
  function CollectorWork(s: State): int
    requires PhaseInv(s)
  {
    var n := |s.ws|;
    match s.phase
    case Suspend(i) => RoundsWork(s.rounds - s.round - 1, n) + (4 * n - i) + n + 1
    case AwaitAck(i) => RoundsWork(s.rounds - s.round - 1, n) + (3 * n - i) + n + 1
    case PostResume(i) => RoundsWork(s.rounds - s.round - 1, n) + (2 * n - i) + n + 1
    case AwaitResumed(i) => RoundsWork(s.rounds - s.round - 1, n) + (n - i) + n + 1
    case StopAll => n + 1
    case Join(i) => n - i
    case Done => 0
  }

  function PlaceWork(at: Place): nat {
    match at
    case Entered => 5
    case Acked => 4
    case Released => 3
    case Leaving => 2
    case Asleep => 1
    case Exited => 0
  }

  /** Steps a worker and the tracer have still to take for it, at most. */
  function WorkerWork(w: Worker, rounds: nat): int {
    7 * (rounds - w.sent)
    + (if w.pending then 7 else 0)
    + (if w.halted.Halted? then (if SignalStopped(w) then 6 else 1) else 0)
    + PlaceWork(w.at) + 3 * w.noise + 2 * |w.others|
  }

  function WorkersWork(ws: seq<Worker>, rounds: nat): int {
    if ws == [] then 0 else WorkersWork(ws[..|ws| - 1], rounds) + WorkerWork(ws[|ws| - 1], rounds)
  }

  lemma {:induction false} WorkersWorkUpdate(ws: seq<Worker>, i: nat, w: Worker, rounds: nat)
    requires i < |ws|
    ensures WorkersWork(ws[i := w], rounds)
         == WorkersWork(ws, rounds) - WorkerWork(ws[i], rounds) + WorkerWork(w, rounds)
  {
    hide WorkerWork;
    var last := |ws| - 1;
    if i == last {
      assert ws[i := w][..last] == ws[..last];
    } else {
      assert ws[i := w][..last] == ws[..last][i := w];
      WorkersWorkUpdate(ws[..last], i, w, rounds);
    }
  }

  lemma {:induction false} WorkersWorkNonNegative(ws: seq<Worker>, rounds: nat)
    requires forall i :: 0 <= i < |ws| ==> ws[i].sent <= rounds
    ensures 0 <= WorkersWork(ws, rounds)
  {
    if ws != [] {
      var init := ws[..|ws| - 1];
      assert forall i :: 0 <= i < |init| ==> init[i] == ws[i];
      WorkersWorkNonNegative(init, rounds);
      assert ws[|ws| - 1].sent <= rounds;
    }
  }

  function Work(s: State): int
    requires PhaseInv(s)
  {
    CollectorWork(s) + WorkersWork(s.ws, s.rounds)
  }

  lemma WorkIsBounded(s: State)
    requires Inv(s)
    ensures 0 <= Work(s)
  {
    forall i | 0 <= i < |s.ws|
      ensures s.ws[i].sent <= s.rounds
    {
      WorkerOfInv(s, i);
    }
    WorkersWorkNonNegative(s.ws, s.rounds);
  }

  lemma CollectorReducesWork(s: State)
    requires Inv(s) && CollectorReady(s) && PhaseInv(CollectorStep(s))
    requires s.phase.Suspend? ==> !s.ws[s.phase.i].pending
    ensures Work(CollectorStep(s)) < Work(s)
  {
    hide WorkersWork, WorkersInv, JoinInv;
    var t := CollectorStep(s);
    if s.phase.StopAll? || s.phase.Join? {
      assert t.ws == s.ws;
    } else {
      var i := s.phase.i;
      WorkersWorkUpdate(s.ws, i, t.ws[i], s.rounds);
      assert t.ws == s.ws[i := t.ws[i]];
      assert WorkerWork(t.ws[i], s.rounds) <= WorkerWork(s.ws[i], s.rounds);
    }
    CollectorReducesOwnWork(s);
  }

  lemma CollectorReducesOwnWork(s: State)
    requires PhaseInv(s) && CollectorReady(s) && PhaseInv(CollectorStep(s))
    ensures CollectorWork(CollectorStep(s)) < CollectorWork(s)
  {
  }

  lemma WorkerStepReducesWorkerWork(s: State, step: Step)
    requires Inv(s) && Enabled(Reinjecting, s, step) && !step.Collector?
    ensures WorkerWork(Apply(Reinjecting, s, step).ws[step.i], s.rounds) < WorkerWork(s.ws[step.i], s.rounds)
  {
    hide WorkersInv, JoinInv, WorkerInv, WorkerWork, RaiseSignal, Resume, HandlerStep, PlaceInv;
    WorkerOfInv(s, step.i);
    var w := s.ws[step.i];
    match step
    case Deliver(_) => DeliverReducesWork(w, s.rounds);
    case Trace(_) => TraceReducesWork(w, s.rounds);
    case Handler(_) => HandlerReducesWork(w, s.rounds);
    case Exit(_) => ExitReducesWork(w, s.rounds);
    case Noise(_, stop) => NoiseReducesWork(w, stop, s.rounds);
    case Raise(_, sig) => RaiseReducesWork(w, sig, s.rounds);
    case DeliverOther(_, sig) => DeliverOtherReducesWork(w, sig, s.rounds);
  }

  lemma DeliverReducesWork(w: Worker, rounds: nat)
    requires w.pending && w.halted.Running?
    ensures WorkerWork(w.(pending := false, halted := Halted(Stop(0, SIGPWR))), rounds) < WorkerWork(w, rounds)
  {
  }

  lemma TraceReducesWork(w: Worker, rounds: nat)
    requires PlaceInv(w) && w.halted.Halted?
    ensures WorkerWork(Resume(Reinjecting, w), rounds) < WorkerWork(w, rounds)
  {
  }

  lemma HandlerReducesWork(w: Worker, rounds: nat)
    requires !w.at.Asleep? && !w.at.Exited? && (w.at.Acked? ==> w.resume > 0)
    ensures WorkerWork(HandlerStep(w), rounds) < WorkerWork(w, rounds)
  {
  }

  lemma ExitReducesWork(w: Worker, rounds: nat)
    requires w.at.Asleep?
    ensures WorkerWork(w.(at := Exited), rounds) < WorkerWork(w, rounds)
  {
  }

  lemma NoiseReducesWork(w: Worker, stop: Stop, rounds: nat)
    requires w.halted.Running? && w.noise > 0 && Idle(stop)
    ensures WorkerWork(w.(halted := Halted(stop), noise := w.noise - 1), rounds) < WorkerWork(w, rounds)
  {
  }

  lemma RaiseReducesWork(w: Worker, sig: int, rounds: nat)
    requires w.noise > 0
    ensures WorkerWork(RaiseSignal(w, sig), rounds) < WorkerWork(w, rounds)
  {
    hide Injected, PlaceWork;
  }

  lemma DeliverOtherReducesWork(w: Worker, sig: int, rounds: nat)
    requires PlaceInv(w) && sig in w.others && w.halted.Running?
    ensures WorkerWork(w.(others := w.others - {sig}, halted := Halted(Stop(0, sig))), rounds) < WorkerWork(w, rounds)
  {
  }

  /** Every step leaves strictly less work, so every run is finite. */
  lemma StepsReduceWork(s: State, step: Step)
    requires Inv(s) && Enabled(Reinjecting, s, step)
    ensures Inv(Apply(Reinjecting, s, step))
    ensures 0 <= Work(Apply(Reinjecting, s, step)) < Work(s)
  {
    hide WorkersInv, JoinInv, WorkersWork, CollectorStep, WorkerWork, Resume, HandlerStep;
    StepKeepsInv(s, step);
    var t := Apply(Reinjecting, s, step);
    WorkIsBounded(t);
    if step.Collector? {
      if s.phase.Suspend? {
        NothingInFlightAtSuspend(s);
      }
      CollectorReducesWork(s);
    } else {
      WorkerStepReducesWorkerWork(s, step);
      WorkersWorkUpdate(s.ws, step.i, t.ws[step.i], s.rounds);
      assert CollectorWork(t) == CollectorWork(s);
    }
  }

  /** A run of `k` steps has used up at least `k` of the work there was at its start. */
  lemma {:induction false} RunLengthIsBounded(states: seq<State>, steps: seq<Step>, k: nat)
    requires IsRun(Reinjecting, states, steps) && k < |states|
    ensures Inv(states[0]) && Inv(states[k])
    ensures 0 <= Work(states[k]) && k + Work(states[k]) <= Work(states[0])
  {
    hide Init, Enabled, Apply, Inv, Work;
    RunKeepsInv(states, steps, 0);
    if k > 0 {
      RunLengthIsBounded(states, steps, k - 1);
      StepsReduceWork(states[k - 1], steps[k - 1]);
      assert states[k] == Apply(Reinjecting, states[k - 1], steps[k - 1]);
    } else {
      WorkIsBounded(states[0]);
    }
  }

  /** A worker the collector waits for can move, or the tracer can move it. */
  function Unblock(s: State, i: nat): Step
    requires i < |s.ws|
  {
    if s.ws[i].halted.Halted? then Trace(i)
    else if s.ws[i].at.Asleep? then (if s.ws[i].pending then Deliver(i) else Exit(i))
    else Handler(i)
  }

  lemma WaitedForCanMove(s: State)
    requires Inv(s) && !CollectorReady(s) && !s.phase.Done?
    ensures !s.phase.StopAll? && s.phase.i < |s.ws|
    ensures Enabled(Reinjecting, s, Unblock(s, s.phase.i))
  {
    WorkerOfInv(s, s.phase.i);
  }

  /** The handshake never deadlocks: in every reachable state that is not done, some step can be taken. */
  lemma NeverDeadlocks(states: seq<State>, steps: seq<Step>, k: nat)
    requires IsRun(Reinjecting, states, steps) && k < |states| && !states[k].phase.Done?
    ensures exists step :: Enabled(Reinjecting, states[k], step) && !step.Noise? && !step.Raise?
  {
    hide IsRun, Inv;
    RunKeepsInv(states, steps, k);
    var s := states[k];
    if CollectorReady(s) {
      assert Enabled(Reinjecting, s, Collector);
    } else {
      WaitedForCanMove(s);
      assert Enabled(Reinjecting, s, Unblock(s, s.phase.i));
    }
  }

  // ---- the tracer that dropped signals -----------------------------------------------------------------

  predicate NeverParked(s: State) {
    && s.round == 0 && (s.phase.Suspend? || s.phase == AwaitAck(0))
    && forall i :: 0 <= i < |s.ws| ==>
         && s.ws[i].acked == 0 && s.ws[i].entries == 0 && (s.ws[i].at.Asleep? || s.ws[i].at.Exited?)
  }

  lemma DroppingStepKeepsNeverParked(s: State, step: Step)
    requires NeverParked(s) && Enabled(Dropping, s, step)
    ensures NeverParked(Apply(Dropping, s, step))
  {
  }

  /** A tracer that resumes signal stops without the signal leaves the collector waiting for its first ack, in
      every run, whatever the number of workers and rounds: no worker ever enters its handler. */
  lemma {:induction false} DroppingTracerNeverStopsTheWorld(states: seq<State>, steps: seq<Step>, k: nat)
    requires IsRun(Dropping, states, steps) && k < |states|
    ensures NeverParked(states[k])
  {
    hide NeverParked, Enabled, Apply;
    if k == 0 {
      InitNeverParked(states[0]);
    } else {
      DroppingTracerNeverStopsTheWorld(states, steps, k - 1);
      DroppingStepKeepsNeverParked(states[k - 1], steps[k - 1]);
      assert states[k] == Apply(Dropping, states[k - 1], steps[k - 1]);
    }
  }

  lemma InitNeverParked(s: State)
    requires Init(s)
    ensures NeverParked(s)
  {
  }
}
