/** The macOS library's table of virtual descriptors under concurrent opens and closes
    (native/macos/rcc_interpose.c): a state machine over every interleaving of any number of threads. */
module SlotTable {
  const MAXF: nat := 256

  /** Where a thread is: between opening the placeholder and entering it; out of slots; looking a descriptor up, one
      entry at a time and without the lock; about to close it for real; or, with the order reversed, about to clear
      the slot of a descriptor that is closed already. */
  datatype Pc = Idle | Opened(fd: nat) | Full(fd: nat) | Scan(fd: nat, j: nat) | Found(fd: nat, i: nat)
              | Missing(fd: nat) | Cleared(fd: nat) | Stale(fd: nat, i: nat)

  /** `kernel` holds the descriptors open in the kernel, `app` those the program has and is not closing; `virt` is what
      the table stands for: which descriptors are virtual, and their slots. */
  datatype State = State(kernel: set<nat>, app: set<nat>, tab: seq<nat>, virt: map<nat, nat>, threads: seq<Pc>)

  datatype Step =
    | OpenFile(t: nat, fd: nat)
    | OpenNull(t: nat, fd: nat)
    | Install(t: nat)
    | GiveBack(t: nat)
    | BeginClose(t: nat, fd: nat)
    | ScanOne(t: nat)
    | Clear(t: nat)
    | RealClose(t: nat)

  function Start(n: nat): State { State({0, 1, 2}, {}, seq(MAXF, _ => 0), map[], seq(n, _ => Idle)) }

  /** The first empty slot, or the table's size when there is none. */
  function FirstFree(tab: seq<nat>): (i: nat)
    ensures i <= |tab|
    ensures i < |tab| ==> tab[i] == 0
    ensures forall j :: 0 <= j < i ==> tab[j] != 0
  {
    if tab == [] || tab[0] == 0 then 0 else 1 + FirstFree(tab[1..])
  }

  predicate Enabled(s: State, step: Step) {
    && step.t < |s.threads|
    && var pc := s.threads[step.t];
       match step
       case OpenFile(_, fd) => pc.Idle? && fd !in s.kernel
       case OpenNull(_, fd) => pc.Idle? && fd !in s.kernel
       case Install(_) => pc.Opened?
       case GiveBack(_) => pc.Full?
       case BeginClose(_, fd) => pc.Idle? && fd in s.app
       case ScanOne(_) => pc.Scan?
       case Clear(_) => pc.Found? || pc.Stale?
       case RealClose(_) => pc.Found? || pc.Missing? || pc.Cleared?
  }

  function At(s: State, t: nat, pc: Pc): State
    requires t < |s.threads|
  {
    s.(threads := s.threads[t := pc])
  }

  /** The code clears the slot before the real close; `clearFirst` turns that round. */
  predicate InOrder(clearFirst: bool, s: State, step: Step)
    requires Enabled(s, step)
  {
    var pc := s.threads[step.t];
    && (step.Clear? ==> (pc.Found? <==> clearFirst))
    && (step.RealClose? && pc.Found? ==> !clearFirst)
  }

  function Apply(s: State, step: Step): State
    requires Enabled(s, step)
  {
    var t, pc := step.t, s.threads[step.t];
    match step
    case OpenFile(_, fd) => s.(kernel := s.kernel + {fd}, app := s.app + {fd})
    case OpenNull(_, fd) => At(s, t, Opened(fd)).(kernel := s.kernel + {fd})
    case Install(_) =>
      var i := FirstFree(s.tab);
      if i < |s.tab| then
        At(s, t, Idle).(tab := s.tab[i := pc.fd], app := s.app + {pc.fd}, virt := s.virt[pc.fd := i])
      else At(s, t, Full(pc.fd))
    case GiveBack(_) => At(s, t, Idle).(kernel := s.kernel - {pc.fd})
    case BeginClose(_, fd) => At(s, t, Scan(fd, 0)).(app := s.app - {fd})
    case ScanOne(_) =>
      At(s, t, if pc.j >= |s.tab| then Missing(pc.fd)
               else if s.tab[pc.j] == pc.fd then Found(pc.fd, pc.j)
               else Scan(pc.fd, pc.j + 1))
    case Clear(_) =>
      At(s, t, if pc.Found? then Cleared(pc.fd) else Idle)
        .(tab := if pc.i < |s.tab| then s.tab[pc.i := 0] else s.tab, virt := s.virt - {pc.fd})
    case RealClose(_) =>
      At(s, t, if pc.Found? then Stale(pc.fd, pc.i) else Idle).(kernel := s.kernel - {pc.fd})
  }

  ghost predicate IsRun(clearFirst: bool, states: seq<State>, steps: seq<Step>) {
    && |states| == |steps| + 1
    && states[0] == Start(|states[0].threads|)
    && forall k :: 0 <= k < |steps| ==>
         && Enabled(states[k], steps[k]) && InOrder(clearFirst, states[k], steps[k])
         && states[k + 1] == Apply(states[k], steps[k])
  }

  // ---- what every step keeps ---------------------------------------------------------------------------

  /** The table and the map it stands for say the same, and everything in it is open in the kernel. */
  ghost predicate TableInv(s: State) {
    && |s.tab| == MAXF
    && (forall f :: f in s.virt ==> f in s.kernel && f > 2 && s.virt[f] < MAXF && s.tab[s.virt[f]] == f)
    && (forall i :: 0 <= i < |s.tab| && s.tab[i] != 0 ==> s.tab[i] in s.virt && s.virt[s.tab[i]] == i)
  }

  /** A thread's own descriptor is open, nobody else's, and virtual just when its place in the code says so. */
  ghost predicate PcInv(s: State, pc: Pc) {
    && (!pc.Idle? ==> pc.fd in s.kernel && pc.fd > 2 && pc.fd !in s.app && !pc.Stale?)
    && (pc.Opened? || pc.Full? || pc.Missing? || pc.Cleared? ==> pc.fd !in s.virt)
    && (pc.Scan? ==> pc.j <= MAXF && (pc.fd in s.virt ==> pc.j <= s.virt[pc.fd]))
    && (pc.Found? ==> pc.fd in s.virt && s.virt[pc.fd] == pc.i)
  }

  predicate Apart(a: Pc, b: Pc) { a.Idle? || b.Idle? || a.fd != b.fd }

  ghost predicate Inv(s: State) {
    && TableInv(s)
    && {0, 1, 2} <= s.kernel && s.app <= s.kernel && s.app !! {0, 1, 2}
    && (forall t :: 0 <= t < |s.threads| ==> PcInv(s, s.threads[t]))
    && (forall t, u :: 0 <= t < u < |s.threads| ==> Apart(s.threads[t], s.threads[u]))
  }

  lemma KeepsTable(s: State, step: Step)
    requires Inv(s) && Enabled(s, step) && InOrder(true, s, step)
    ensures TableInv(Apply(s, step))
  {
    hide PcInv;
    var pc := s.threads[step.t];
    assert PcInv(s, pc);
    OwnerFacts(s, pc);
  }

  lemma OwnerFacts(s: State, pc: Pc)
    requires PcInv(s, pc)
    ensures pc.Opened? || pc.Full? || pc.Missing? || pc.Cleared? ==> pc.fd in s.kernel && pc.fd > 2 && pc.fd !in s.virt
    ensures pc.Found? ==> pc.fd in s.virt && s.virt[pc.fd] == pc.i
    ensures !pc.Stale?
  {
  }

  lemma KeepsPc(s: State, step: Step, t: nat)
    requires Inv(s) && Enabled(s, step) && InOrder(true, s, step) && t < |s.threads|
    ensures PcInv(Apply(s, step), Apply(s, step).threads[t])
  {
    assert PcInv(s, s.threads[step.t]) && PcInv(s, s.threads[t]);
  }

  lemma StepKeepsInv(s: State, step: Step)
    requires Inv(s) && Enabled(s, step) && InOrder(true, s, step)
    ensures Inv(Apply(s, step))
  {
    hide TableInv, PcInv;
    KeepsTable(s, step);
    forall t | 0 <= t < |s.threads|
      ensures PcInv(Apply(s, step), Apply(s, step).threads[t])
    {
      KeepsPc(s, step, t);
    }
    OwnDescriptor(s, step.t);
    forall t, u | 0 <= t < u < |s.threads|
      ensures Apart(Apply(s, step).threads[t], Apply(s, step).threads[u])
    {
      OwnDescriptor(s, t);
      OwnDescriptor(s, u);
    }
  }

  lemma OwnDescriptor(s: State, t: nat)
    requires Inv(s) && t < |s.threads|
    ensures !s.threads[t].Idle? ==> s.threads[t].fd in s.kernel && s.threads[t].fd > 2 && s.threads[t].fd !in s.app
  {
    assert PcInv(s, s.threads[t]);
  }

  lemma {:induction false} RunKeepsInv(states: seq<State>, steps: seq<Step>, k: nat)
    requires IsRun(true, states, steps) && k <= |steps|
    ensures Inv(states[k])
  {
    hide Inv, Enabled, Apply, InOrder;
    if k == 0 {
      StartIsInv(|states[0].threads|);
    } else {
      RunKeepsInv(states, steps, k - 1);
      StepKeepsInv(states[k - 1], steps[k - 1]);
    }
  }

  lemma StartIsInv(n: nat)
    ensures Inv(Start(n))
  {
  }

  // ---- results -----------------------------------------------------------------------------------------

  /** In every run, no two slots hold the same descriptor and every descriptor held is open in the kernel, so that a
      number the kernel gives out next is in no slot. */
  lemma SlotsAreDistinctAndOpen(states: seq<State>, steps: seq<Step>, k: nat)
    requires IsRun(true, states, steps) && k <= |steps|
    ensures var s := states[k];
            && |s.tab| == MAXF
            && (forall i, j :: 0 <= i < j < |s.tab| && s.tab[i] != 0 ==> s.tab[i] != s.tab[j])
            && (forall i :: 0 <= i < |s.tab| && s.tab[i] != 0 ==> s.tab[i] in s.kernel)
            && (forall fd :: fd !in s.kernel ==> fd !in s.tab)
  {
    RunKeepsInv(states, steps, k);
    hide IsRun, PcInv;
    var s := states[k];
    assert 0 in s.kernel;
  }

  /** In every run, the unlocked scan of a thread that closes a descriptor finds its slot when it is virtual and finds
      nothing when it is not, whatever the other threads do meanwhile. */
  lemma LookupIsRight(states: seq<State>, steps: seq<Step>, k: nat, t: nat)
    requires IsRun(true, states, steps) && k <= |steps| && t < |states[k].threads|
    ensures var s, pc := states[k], states[k].threads[t];
            && (pc.Found? ==> pc.fd in s.virt && s.virt[pc.fd] == pc.i < |s.tab| && s.tab[pc.i] == pc.fd)
            && (pc.Missing? ==> pc.fd !in s.virt && pc.fd !in s.tab)
  {
    RunKeepsInv(states, steps, k);
    hide IsRun;
    assert PcInv(states[k], states[k].threads[t]);
  }

  predicate InHand(threads: seq<Pc>, f: nat) {
    exists t :: 0 <= t < |threads| && !threads[t].Idle? && threads[t].fd == f
  }

  /** No descriptor is lost: what is open in the kernel is a standard stream, the program's, or in a thread's hands. */
  ghost predicate NoLeak(s: State) {
    forall f :: f in s.kernel ==> f in {0, 1, 2} || f in s.app || InHand(s.threads, f)
  }

  lemma StepKeepsNoLeak(s: State, step: Step)
    requires Inv(s) && NoLeak(s) && Enabled(s, step) && InOrder(true, s, step)
    ensures NoLeak(Apply(s, step))
  {
    hide Inv, FirstFree, InHand;
    var t, u := step.t, Apply(s, step);
    forall f | f in u.kernel
      ensures f in {0, 1, 2} || f in u.app || InHand(u.threads, f)
    {
      HandsAfter(s.threads, t, u.threads[t], f);
    }
  }

  lemma HandsAfter(threads: seq<Pc>, t: nat, pc: Pc, f: nat)
    requires t < |threads|
    ensures InHand(threads, f) && (threads[t].Idle? || threads[t].fd != f) ==> InHand(threads[t := pc], f)
    ensures !pc.Idle? && pc.fd == f ==> InHand(threads[t := pc], f)
  {
    var after := threads[t := pc];
    if u :| 0 <= u < |threads| && !threads[u].Idle? && threads[u].fd == f && u != t {
      assert after[u] == threads[u];
    }
    assert after[t] == pc;
  }

  lemma {:induction false} NothingLeaks(states: seq<State>, steps: seq<Step>, k: nat)
    requires IsRun(true, states, steps) && k <= |steps|
    ensures NoLeak(states[k])
  {
    hide Inv, Enabled, Apply, InOrder, NoLeak;
    if k == 0 {
      StartLeaksNothing(|states[0].threads|);
    } else {
      NothingLeaks(states, steps, k - 1);
      RunKeepsInv(states, steps, k - 1);
      StepKeepsNoLeak(states[k - 1], steps[k - 1]);
    }
  }

  lemma StartLeaksNothing(n: nat)
    ensures NoLeak(Start(n))
  {
  }

  function PcWork(pc: Pc): nat {
    match pc
    case Idle => 0
    case Opened(_) => 2
    case Full(_) => 1
    case Scan(_, j) => 3 + if j < MAXF then MAXF - j else 0
    case Found(_, _) => 2
    case Missing(_) => 1
    case Cleared(_) => 1
    case Stale(_, _) => 1
  }

  /** What a thread in the middle of an open or a close does next. */
  function NextStep(pc: Pc, t: nat): Step {
    match pc
    case Opened(_) => Install(t)
    case Full(_) => GiveBack(t)
    case Scan(_, _) => ScanOne(t)
    case Found(_, _) => Clear(t)
    case _ => RealClose(t)
  }

  /** In every reachable state a thread in the middle of an open or a close can go on, and is nearer to its end then:
      every open and every close finishes. */
  lemma ThreadsFinish(s: State, t: nat)
    requires Inv(s) && t < |s.threads| && !s.threads[t].Idle?
    ensures var step := NextStep(s.threads[t], t);
            && Enabled(s, step) && InOrder(true, s, step)
            && PcWork(Apply(s, step).threads[t]) < PcWork(s.threads[t])
            && (!Apply(s, step).threads[t].Idle? ==> Apply(s, step).threads[t].fd == s.threads[t].fd)
  {
    hide TableInv, Apart, FirstFree;
    assert PcInv(s, s.threads[t]);
    FullTable(s);
  }

  lemma FullTable(s: State)
    requires Inv(s)
    ensures |s.tab| == MAXF
  {
    hide PcInv;
  }

  /** A close that has finished leaves its descriptor closed and in no slot. */
  lemma ClosedIsGone(s: State, t: nat)
    requires Inv(s) && Enabled(s, RealClose(t)) && InOrder(true, s, RealClose(t))
    ensures var u := Apply(s, RealClose(t));
            u.threads[t].Idle? && s.threads[t].fd !in u.kernel && s.threads[t].fd !in u.app
            && s.threads[t].fd !in u.tab
  {
    assert PcInv(s, s.threads[t]);
  }

  /** An open that has finished either has its descriptor in a slot and given it to the program, or there was no empty
      slot and the descriptor is closed again. */
  lemma OpenedIsThereOrFull(s: State, t: nat)
    requires Inv(s) && t < |s.threads| && s.threads[t].Opened?
    ensures var fd, u := s.threads[t].fd, Apply(s, Install(t));
            if exists i :: 0 <= i < MAXF && s.tab[i] == 0
            then u.threads[t].Idle? && fd in u.app && fd in u.tab && fd in u.kernel
            else u.threads[t] == Full(fd) && u.tab == s.tab && fd !in Apply(u, GiveBack(t)).kernel
                 && Apply(u, GiveBack(t)).threads[t].Idle?
  {
    assert PcInv(s, s.threads[t]);
    var i := FirstFree(s.tab);
    if i < |s.tab| {
      assert s.tab[i] == 0 && Apply(s, Install(t)).tab[i] == s.threads[t].fd;
    }
  }

  /** Were the real close to come first, the kernel could give a slot's number to an ordinary file before the slot is
      cleared: the table then claims a descriptor that is not virtual. */
  lemma ReversedOrderMisroutes() returns (states: seq<State>, steps: seq<Step>)
    ensures IsRun(false, states, steps) && steps != [] && steps[|steps| - 1] == OpenFile(1, 3)
    ensures states[|steps|].tab != [] && states[|steps|].tab[0] == 3
  {
    var s0 := Start(2);
    var s1 := Apply(s0, OpenNull(0, 3));
    var s2 := Apply(s1, Install(0));
    assert s2.tab[0] == 3 && s2.threads == [Idle, Idle];
    var s3 := Apply(s2, BeginClose(0, 3));
    var s4 := Apply(s3, ScanOne(0));
    assert s4.threads == [Found(3, 0), Idle];
    var s5 := Apply(s4, RealClose(0));
    assert s5.threads == [Stale(3, 0), Idle] && 3 !in s5.kernel;
    var s6 := Apply(s5, OpenFile(1, 3));
    states := [s0, s1, s2, s3, s4, s5, s6];
    steps := [OpenNull(0, 3), Install(0), BeginClose(0, 3), ScanOne(0), RealClose(0), OpenFile(1, 3)];
  }

  // ---- the table itself --------------------------------------------------------------------------------

  class Table {
    const tab: array<nat>

    ghost predicate Valid()
      reads tab
    {
      tab.Length == MAXF
    }

    constructor ()
      ensures Valid() && fresh(tab) && forall i :: 0 <= i < MAXF ==> tab[i] == 0
    {
      tab := new nat[MAXF](_ => 0);
    }

    /** Enters a placeholder in the first empty slot, if there is one. */
    method NewSlot(ph: nat) returns (i: int)
      requires Valid()
      modifies tab
      ensures i == if FirstFree(old(tab[..])) < MAXF then FirstFree(old(tab[..])) else -1
      ensures tab[..] == if i >= 0 then old(tab[..])[i := ph] else old(tab[..])
    {
      i := 0;
      while i < MAXF
        invariant 0 <= i <= MAXF && forall j :: 0 <= j < i ==> tab[j] != 0
        invariant tab[..] == old(tab[..])
      {
        if tab[i] == 0 {
          FirstFreeIs(tab[..], i);
          tab[i] := ph;
          return;
        }
        i := i + 1;
      }
      FirstFreeIs(tab[..], i);
      return -1;
    }

    /** The slot of a descriptor. Descriptor 0 is never one of the table's: 0 marks an empty slot. */
    method Slot(fd: int) returns (i: int)
      requires Valid()
      ensures i == -1 <==> fd <= 0 || (forall j :: 0 <= j < MAXF ==> tab[j] != fd)
      ensures i != -1 ==> 0 <= i < MAXF && tab[i] == fd && forall j :: 0 <= j < i ==> tab[j] != fd
    {
      if fd <= 0 {
        return -1;
      }
      for k := 0 to MAXF
        invariant forall j :: 0 <= j < k ==> tab[j] != fd
      {
        if tab[k] == fd {
          return k;
        }
      }
      return -1;
    }
  }

  lemma {:induction false} FirstFreeIs(tab: seq<nat>, i: nat)
    requires i <= |tab| && (forall j :: 0 <= j < i ==> tab[j] != 0) && (i < |tab| ==> tab[i] == 0)
    ensures FirstFree(tab) == i
  {
    if i > 0 {
      FirstFreeIs(tab[1..], i - 1);
    }
  }
}
