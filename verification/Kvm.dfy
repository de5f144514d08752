/** The emulated KVM_RUN: the vCPU thread runs guest code in a coroutine that gives up control in the middle
    of an I/O instruction, under one mutex shared with the timer thread and the signal handler's thread.
    Each event is one step of one thread; they interleave in any order. */
module Kvm {
  import opened Wire

  datatype Owner = Nobody | Vcpu | Timer | Signal

  datatype Reason = Unset | Io | Mmio | Hlt | IrqWindowOpen | Intr

  /** vCPU thread: outside KVM_RUN; injecting an interrupt, with the mutex held; before entering the
      coroutine; in it; back from it; exit reason settled; about to release the mutex held across an I/O
      exit; dead after a failed assertion. `allowed` remembers whether the caller was entitled to inject. */
  datatype Pc =
    | Outside | Injecting(n: nat, allowed: bool) | Resuming | InCoroutine | Back | Settled | Releasing | Aborted

  /** Coroutine: at the top of its loop; running guest code; suspended inside an I/O instruction; guest code
      left, deciding whether to go round again. */
  datatype Coroutine = AtLock | Guest | InIo | Left

  /** `env->interrupt_request`: the hard interrupt bit, and whether any other bit is set. */
  datatype Request = Request(hard: bool, other: bool) {
    predicate ExactlyHard() { hard && !other }
  }

  datatype Fate = Pending | Delivered | Overwritten

  /** An interrupt number that was stored, and what became of it. */
  datatype Injection = Injection(n: nat, fate: Fate)

  /** `irq` is the pending number; `ready` the flag in the shared buffer; `since` counts the injections since
      the last KVM_RUN returned; `history` holds every number ever stored. */
  datatype State = State(
    mutex: Owner, pc: Pc, co: Coroutine, handlingIo: bool, reason: Reason,
    irq: Option<nat>, request: Request, ready: bool, ran: bool, since: nat, history: seq<Injection>)

  datatype Event =
    | RunBegins | ResumeLocked | Resume
    | CoLock | CoResumeIo | GuestStep(keepHard: bool, other: bool) | GuestTakesIrq | GuestIo(mmio: bool)
    | GuestLeaves | GoRound | Yield
    | Settle(halted: bool, ifFlag: bool, windowWanted: bool) | SetHandlingIo | Release
    | InjectLock(n: nat) | Inject
    | TimerLock | RunTimers(keepHard: bool, other: bool) | TimerUnlock
    | SignalLock | SignalUnlock

  ghost predicate Init(s: State) {
    && s.mutex == Nobody && s.pc == Outside && s.co == AtLock && !s.handlingIo && s.irq == None
    && s.request == Request(false, false) && !s.ready && !s.ran && s.since == 0 && s.history == []
  }

  /** A lock waits until the mutex is free. Interrupts are injected whenever the caller likes, outside a run. */
  predicate Enabled(s: State, ev: Event) {
    && s.pc != Aborted
    && match ev
       case RunBegins => s.pc == Outside
       case ResumeLocked => s.pc == Resuming && s.handlingIo && s.mutex == Nobody
       case Resume => s.pc == Resuming && !s.handlingIo
       case CoLock => s.pc == InCoroutine && s.co == AtLock && s.mutex == Nobody
       case CoResumeIo => s.pc == InCoroutine && s.co == InIo
       case GuestStep(_, _) => s.pc == InCoroutine && s.co == Guest
       case GuestTakesIrq => s.pc == InCoroutine && s.co == Guest && s.request.hard
       case GuestIo(_) => s.pc == InCoroutine && s.co == Guest
       case GuestLeaves => s.pc == InCoroutine && s.co == Guest
       case GoRound => s.pc == InCoroutine && s.co == Left
       case Yield => s.pc == InCoroutine && s.co == Left
       case Settle(_, _, _) => s.pc == Back
       case SetHandlingIo => s.pc == Settled
       case Release => s.pc == Releasing
       case InjectLock(_) => s.pc == Outside && s.mutex == Nobody
       case Inject => s.pc.Injecting?
       case TimerLock => s.mutex == Nobody
       case RunTimers(_, _) => s.mutex == Timer && !s.handlingIo
       case TimerUnlock => s.mutex == Timer
       case SignalLock => s.mutex == Nobody
       case SignalUnlock => s.mutex == Signal
  }

  /** The last number stored meets its fate. */
  function Fated(history: seq<Injection>, fate: Fate): seq<Injection> {
    if history == [] then [] else history[|history| - 1 := history[|history| - 1].(fate := fate)]
  }

  function Next(s: State, ev: Event): State
    requires Enabled(s, ev)
  {
    match ev
    case RunBegins => s.(pc := Resuming, reason := Unset)
    case ResumeLocked => s.(pc := InCoroutine, mutex := Vcpu, handlingIo := false)
    case Resume => s.(pc := InCoroutine)
    case CoLock => s.(co := Guest, mutex := Vcpu, request := s.request.(hard := s.request.hard || s.irq.Some?))
    case CoResumeIo => s.(co := Guest)
    // guest code and timers change other request bits at will, and may clear the hard one
    case GuestStep(keepHard, other) => s.(request := Request(s.request.hard && keepHard, other))
    case GuestTakesIrq =>
      // cpu_get_pic_interrupt hands out the pending number, or none
      if s.irq.Some? then
        s.(irq := None, request := s.request.(hard := false), history := Fated(s.history, Delivered))
      else s.(request := s.request.(hard := false))
    case GuestIo(mmio) => s.(co := InIo, pc := Back, reason := if mmio then Mmio else Io)
    case GuestLeaves => s.(co := Left, mutex := Nobody)
    case GoRound => s.(co := AtLock)
    case Yield => s.(co := AtLock, pc := Back)
    case Settle(halted, ifFlag, windowWanted) =>
      var ready := ifFlag && s.irq == None;
      s.(pc := Settled, ready := ready, since := 0,
         reason := if s.reason != Unset then s.reason
                   else if halted then Hlt
                   else if windowWanted && ready then IrqWindowOpen
                   else Intr)
    case SetHandlingIo =>
      var io := s.reason == Io || s.reason == Mmio;
      s.(handlingIo := io, pc := if io then Releasing else Outside, ran := true)
    case Release => s.(mutex := Nobody, pc := Outside)
    case InjectLock(n) => s.(mutex := Vcpu, pc := Injecting(n, s.ready && s.since == 0))
    case Inject =>
      if s.request.ExactlyHard() then s.(pc := Aborted)
      else
        s.(irq := Some(s.pc.n), request := Request(true, false), mutex := Nobody, pc := Outside, since := s.since + 1,
           history := (if s.irq.Some? then Fated(s.history, Overwritten) else s.history) + [Injection(s.pc.n, Pending)])
    case TimerLock => s.(mutex := Timer)
    case RunTimers(keepHard, other) => s.(request := Request(s.request.hard && keepHard, other))
    case TimerUnlock => s.(mutex := Nobody)
    case SignalLock => s.(mutex := Signal)
    case SignalUnlock => s.(mutex := Nobody)
  }

  // ---------------------------------------------------------------------------------------------
  // Invariant

  /** When the vCPU thread holds the mutex. */
  ghost predicate Holds(s: State) {
    match s.pc
    case InCoroutine => s.co == Guest || s.co == InIo
    case Back => s.co == InIo
    case Settled => s.co == InIo
    case Releasing => true
    case Injecting(_, _) => true
    case Aborted => true
    case _ => false
  }

  ghost predicate LockOk(s: State) {
    && (s.mutex == Vcpu <==> Holds(s))
    && (s.co == Guest || s.co == Left ==> s.pc == InCoroutine)
    // a suspended I/O instruction is announced whenever another thread could look
    && (s.co == InIo && s.pc != InCoroutine && s.pc != Back && s.pc != Settled ==> s.handlingIo)
    && (s.handlingIo ==>
          s.co == InIo && (s.pc == Outside || s.pc.Injecting? || s.pc == Resuming || s.pc == Releasing || s.pc == Aborted))
    && (s.pc == Releasing ==> s.handlingIo)
  }

  ghost predicate ReasonOk(s: State) {
    match s.pc
    case Resuming => s.reason == Unset
    case InCoroutine => s.reason == Unset
    case Back => if s.co == InIo then s.reason == Io || s.reason == Mmio else s.reason == Unset
    case Settled => s.reason != Unset && (s.co == InIo <==> s.reason == Io || s.reason == Mmio)
    case Releasing => s.reason == Io || s.reason == Mmio
    case _ => s.ran ==> s.reason != Unset
  }

  /** The pending number is the last one stored; all before it have met their fate. */
  ghost predicate HistoryOk(s: State) {
    && (forall i :: 0 <= i < |s.history| - 1 ==> s.history[i].fate != Pending)
    && (s.history != [] ==>
          var last := s.history[|s.history| - 1];
          if s.irq.Some? then last == Injection(s.irq.value, Pending) else last.fate != Pending)
    && (s.history == [] ==> s.irq == None)
  }

  ghost predicate IrqOk(s: State) {
    // only an injection raises the hard bit
    && (s.request.hard ==> s.irq.Some?)
    // the flag is right until the first injection after a run
    && (s.ready && s.since == 0 && (s.pc == Settled || s.pc == Releasing || s.pc == Outside) ==> s.irq == None)
    && (s.pc.Injecting? && s.pc.allowed ==> s.irq == None)
    && (s.pc == Aborted ==> s.irq.Some?)
  }

  ghost predicate Inv(s: State) {
    LockOk(s) && ReasonOk(s) && HistoryOk(s) && IrqOk(s)
  }

  lemma StepInv(s: State, ev: Event)
    requires Inv(s) && Enabled(s, ev)
    ensures Inv(Next(s, ev))
  {
    if ev == Inject {
      InjectInv(s);
    }
  }

  lemma InjectInv(s: State)
    requires Inv(s) && Enabled(s, Inject)
    ensures Inv(Next(s, Inject))
  {
  }

  // ---------------------------------------------------------------------------------------------
  // Every run

  ghost predicate IsRun(tr: seq<State>, evs: seq<Event>) {
    && |tr| == |evs| + 1 && Init(tr[0])
    && forall k :: 0 <= k < |evs| ==> Enabled(tr[k], evs[k]) && tr[k + 1] == Next(tr[k], evs[k])
  }

  lemma {:induction false} RunInv(tr: seq<State>, evs: seq<Event>, k: nat)
    requires IsRun(tr, evs) && k < |tr|
    ensures Inv(tr[k])
  {
    if k > 0 {
      RunInv(tr, evs, k - 1);
      hide Inv, Next, Enabled;
      assert tr[k - 1 + 1] == Next(tr[k - 1], evs[k - 1]);
      StepInv(tr[k - 1], evs[k - 1]);
    }
  }

  /** What must hold when a step is taken: guest code runs, and interrupts are taken, with the mutex held by
      the vCPU thread; it releases only what it holds; and timers run only while no guest code runs and no
      I/O instruction is suspended. */
  ghost predicate Sound(s: State, ev: Event) {
    match ev
    case GuestStep(_, _) => s.mutex == Vcpu
    case GuestTakesIrq => s.mutex == Vcpu && s.irq.Some?
    case GuestIo(_) => s.mutex == Vcpu
    case GuestLeaves => s.mutex == Vcpu
    case Release => s.mutex == Vcpu
    case Inject => s.mutex == Vcpu
    case RunTimers(_, _) => s.co != Guest && s.co != InIo
    case _ => true
  }

  /** The vCPU thread waits for the mutex. */
  predicate Waits(s: State) {
    || (s.pc == Resuming && s.handlingIo)
    || (s.pc == InCoroutine && s.co == AtLock)
  }

  /** Over every run: each step is sound; the vCPU thread never waits for a mutex it holds itself; whenever
      KVM_RUN has returned, the mutex is not held by it and the exit reason is set; whenever the signal
      thread holds the mutex, a guest instruction in progress is a suspended I/O instruction that is
      announced; and of the numbers stored, all but possibly the last have met their fate, once each. */
  lemma KvmRunIsSafe(tr: seq<State>, evs: seq<Event>, k: nat)
    requires IsRun(tr, evs) && k < |tr|
    ensures k < |evs| ==> Sound(tr[k], evs[k])
    ensures var s := tr[k];
      && (Waits(s) || s.pc == Outside ==> s.mutex != Vcpu)
      && (s.pc == Outside && s.ran ==> s.reason != Unset)
      && (s.mutex == Signal && (s.co == Guest || s.co == InIo) ==> s.handlingIo)
      && (forall i :: 0 <= i < |s.history| - 1 ==> s.history[i].fate != Pending)
      && (s.irq.Some? <==> s.history != [] && s.history[|s.history| - 1].fate == Pending)
      && (s.irq.Some? ==> s.history[|s.history| - 1].n == s.irq.value)
  {
    RunInv(tr, evs, k);
  }

  /** One step's effect on the history: numbers that have met their fate keep it, only an injection adds or
      overwrites, and only the guest's taking an interrupt delivers. */
  ghost predicate FatesKept(h: seq<Injection>, h': seq<Injection>, ev: Event) {
    && |h| <= |h'| <= |h| + 1 && (|h'| > |h| ==> ev == Inject)
    && forall i :: 0 <= i < |h| ==>
         || h'[i] == h[i]
         || (h[i].fate == Pending && h'[i].n == h[i].n
             && ((ev == GuestTakesIrq && h'[i].fate == Delivered) || (ev == Inject && h'[i].fate == Overwritten)))
  }

  lemma FatedKept(h: seq<Injection>, fate: Fate, ev: Event)
    requires h != [] && h[|h| - 1].fate == Pending
    requires (ev == GuestTakesIrq && fate == Delivered) || (ev == Inject && fate == Overwritten)
    ensures FatesKept(h, Fated(h, fate), ev)
    ensures ev == Inject ==> forall x :: FatesKept(h, Fated(h, fate) + [x], ev)
  {
  }

  /** Nothing is delivered twice, or after it was overwritten. */
  lemma FatesAreFinal(tr: seq<State>, evs: seq<Event>, k: nat)
    requires IsRun(tr, evs) && k < |evs|
    ensures FatesKept(tr[k].history, tr[k + 1].history, evs[k])
  {
    RunInv(tr, evs, k);
    FateStep(tr[k], evs[k]);
  }

  lemma FateStep(s: State, ev: Event)
    requires Inv(s) && Enabled(s, ev)
    ensures FatesKept(s.history, Next(s, ev).history, ev)
  {
    hide LockOk, ReasonOk, Fated;
    if s.irq.Some? && ev == GuestTakesIrq {
      FatedKept(s.history, Delivered, ev);
    } else if s.irq.Some? && ev == Inject {
      FatedKept(s.history, Overwritten, ev);
    }
  }

  /** The stored number replaced one that was still pending. */
  ghost predicate Overwrote(s: State, t: State) {
    && s.irq.Some? && |t.history| == |s.history| + 1 && s.history != []
    && t.history[|s.history| - 1] == Injection(s.irq.value, Overwritten)
  }

  /** In every run, an injection fails the assertion exactly if the request is the hard bit alone, and then a
      number is pending; it overwrites exactly if a number is pending and the request is anything else; and
      it does neither if the caller saw the flag and had not injected since the last run returned. */
  lemma InjectionOutcome(tr: seq<State>, evs: seq<Event>, k: nat)
    requires IsRun(tr, evs) && k < |evs| && evs[k] == Inject
    ensures var s, t := tr[k], tr[k + 1];
      && (t.pc == Aborted <==> s.request.ExactlyHard())
      && (t.pc == Aborted ==> s.irq.Some?)
      && (Overwrote(s, t) <==> s.irq.Some? && !s.request.ExactlyHard())
      && (s.pc.Injecting? && s.pc.allowed ==> t.pc != Aborted && !Overwrote(s, t))
  {
    RunInv(tr, evs, k);
  }

  /** The caller injects only when the last run reported readiness, and once until the next run. */
  ghost predicate Disciplined(tr: seq<State>, evs: seq<Event>) {
    |tr| == |evs| + 1 && forall k :: 0 <= k < |evs| && evs[k].InjectLock? ==> tr[k].ready && tr[k].since == 0
  }

  /** Nothing bad has happened, and nothing bad is about to. */
  ghost predicate Clean(s: State) {
    && s.pc != Aborted && (s.pc.Injecting? ==> s.pc.allowed)
    && forall i :: 0 <= i < |s.history| ==> s.history[i].fate != Overwritten
  }

  /** Such a caller never fails the assertion and never overwrites a number: over the whole run every number
      stored has been delivered, in order, except possibly the last one, which is pending. */
  lemma {:induction false} DisciplinedCallerIsSafe(tr: seq<State>, evs: seq<Event>, k: nat)
    requires IsRun(tr, evs) && Disciplined(tr, evs) && k < |tr|
    ensures Clean(tr[k])
    ensures forall i :: 0 <= i < |tr[k].history| - 1 ==> tr[k].history[i].fate == Delivered
  {
    if k > 0 {
      DisciplinedCallerIsSafe(tr, evs, k - 1);
      var s, ev := tr[k - 1], evs[k - 1];
      RunInv(tr, evs, k - 1);
      assert tr[k - 1 + 1] == Next(s, ev);
      assert ev.InjectLock? ==> s.ready && s.since == 0;
      CleanStep(s, ev);
    }
    RunInv(tr, evs, k);
    assert HistoryOk(tr[k]);
  }

  lemma CleanStep(s: State, ev: Event)
    requires Inv(s) && Clean(s) && Enabled(s, ev) && (ev.InjectLock? ==> s.ready && s.since == 0)
    ensures Clean(Next(s, ev))
  {
  }

  /** The I/O instruction that suspended the guest since the last KVM_RUN began: whether it was to memory. */
  function IoSince(evs: seq<Event>, k: nat): Option<bool>
    requires k <= |evs|
  {
    if k == 0 || evs[k - 1] == RunBegins then None
    else if evs[k - 1].GuestIo? then Some(evs[k - 1].mmio)
    else IoSince(evs, k - 1)
  }

  function IoReason(io: Option<bool>): Reason {
    if io == None then Unset else if io.value then Mmio else Io
  }

  lemma {:induction false} ReasonOfRun(tr: seq<State>, evs: seq<Event>, k: nat)
    requires IsRun(tr, evs) && k < |tr| && (tr[k].pc == Resuming || tr[k].pc == InCoroutine || tr[k].pc == Back)
    ensures tr[k].reason == IoReason(IoSince(evs, k))
  {
    assert k > 0;
    RunInv(tr, evs, k - 1);
    assert tr[k - 1 + 1] == Next(tr[k - 1], evs[k - 1]);
    if evs[k - 1] != RunBegins && !evs[k - 1].GuestIo? {
      ReasonOfRun(tr, evs, k - 1);
    } else if evs[k - 1].GuestIo? {
      assert tr[k].reason == IoReason(Some(evs[k - 1].mmio));
    }
  }

  /** What a run reports: the suspended I/O instruction if there is one, otherwise a halt, otherwise an open interrupt
      window if one was asked for and the caller may inject, otherwise an interruption. And guest code never
      starts with a number pending that it is not told of. */
  lemma ExitReasonIsRight(tr: seq<State>, evs: seq<Event>, k: nat)
    requires IsRun(tr, evs) && k < |evs|
    ensures evs[k].Settle? ==>
      var ready := evs[k].ifFlag && tr[k].irq == None;
      && tr[k + 1].ready == ready
      && tr[k + 1].reason ==
           if IoSince(evs, k).Some? then IoReason(IoSince(evs, k))
           else if evs[k].halted then Hlt
           else if evs[k].windowWanted && ready then IrqWindowOpen
           else Intr
    ensures evs[k] == CoLock ==> (tr[k + 1].request.hard <==> tr[k + 1].irq.Some?)
  {
    RunInv(tr, evs, k);
    assert tr[k + 1] == Next(tr[k], evs[k]);
    if evs[k].Settle? { ReasonOfRun(tr, evs, k); }
  }

  /** A step of the vCPU thread. */
  predicate OfVcpu(ev: Event) {
    !ev.TimerLock? && !ev.RunTimers? && !ev.TimerUnlock? && !ev.SignalLock? && !ev.SignalUnlock?
  }

  /** Unless the process died, the vCPU thread can go on once the other threads have let go of the mutex. */
  lemma NeverStuck(tr: seq<State>, evs: seq<Event>, k: nat)
    requires IsRun(tr, evs) && k < |tr| && tr[k].pc != Aborted
    ensures tr[k].mutex == Timer ==> Enabled(tr[k], TimerUnlock)
    ensures tr[k].mutex == Signal ==> Enabled(tr[k], SignalUnlock)
    ensures tr[k].mutex == Nobody || tr[k].mutex == Vcpu ==> exists ev :: OfVcpu(ev) && Enabled(tr[k], ev)
  {
    RunInv(tr, evs, k);
    var s := tr[k];
    if s.mutex == Nobody || s.mutex == Vcpu {
      var ev :=
        match s.pc
        case Outside => RunBegins
        case Injecting(_, _) => Inject
        case Resuming => if s.handlingIo then ResumeLocked else Resume
        case Back => Settle(false, false, false)
        case Settled => SetHandlingIo
        case Releasing => Release
        case _ =>
          match s.co
          case AtLock => CoLock
          case Guest => GuestLeaves
          case InIo => CoResumeIo
          case Left => Yield;
      assert OfVcpu(ev) && Enabled(s, ev);
    }
  }

  // ---------------------------------------------------------------------------------------------
  // Both failures happen

  ghost predicate Reachable(s: State) {
    exists tr, evs :: IsRun(tr, evs) && tr[|tr| - 1] == s
  }

  lemma InitReachable(s: State)
    requires Init(s)
    ensures Reachable(s)
  {
    assert IsRun([s], []);
  }

  lemma Advance(s: State, ev: Event) returns (t: State)
    requires Reachable(s) && Enabled(s, ev)
    ensures Reachable(t) && t == Next(s, ev)
  {
    var tr, evs :| IsRun(tr, evs) && tr[|tr| - 1] == s;
    t := Next(s, ev);
    var tr', evs' := tr + [t], evs + [ev];
    forall k | 0 <= k < |evs'| ensures Enabled(tr'[k], evs'[k]) && tr'[k + 1] == Next(tr'[k], evs'[k]) {
      assert k < |evs| ==> tr'[k] == tr[k] && evs'[k] == evs[k] && tr'[k + 1] == tr[k + 1];
    }
    assert IsRun(tr', evs');
  }

  /** A run that returned ready. */
  lemma OneRun() returns (s: State)
    ensures Reachable(s)
    ensures s == State(Nobody, Outside, AtLock, false, Intr, None, Request(false, false), true, true, 0, [])
  {
    hide Reachable;
    s := State(Nobody, Outside, AtLock, false, Unset, None, Request(false, false), false, false, 0, []);
    InitReachable(s);
    s := Advance(s, RunBegins);
    s := Advance(s, Resume);
    s := Advance(s, CoLock);
    s := Advance(s, GuestLeaves);
    s := Advance(s, Yield);
    s := Advance(s, Settle(false, true, false));
    s := Advance(s, SetHandlingIo);
  }

  /** After it, interrupt 1 was injected as it should be. */
  lemma OneInjected() returns (s: State)
    ensures Reachable(s)
    ensures s == State(Nobody, Outside, AtLock, false, Intr, Some(1), Request(true, false), true, true, 1, [Injection(1, Pending)])
  {
    hide Reachable;
    s := OneRun();
    s := Advance(s, InjectLock(1));
    s := Advance(s, Inject);
  }

  /** Injecting a second number at once fails the assertion. */
  lemma SecondInjectionAborts() returns (s: State)
    ensures Reachable(s) && s.pc == Aborted
  {
    hide Reachable;
    s := OneInjected();
    s := Advance(s, InjectLock(2));
    s := Advance(s, Inject);
  }

  /** If the guest sets another request bit before an I/O exit, and has not taken the first number, the second
      one silently replaces it. */
  lemma SecondInjectionOverwrites() returns (s: State)
    ensures Reachable(s) && s.pc == Outside && s.irq == Some(2)
    ensures s.history == [Injection(1, Overwritten), Injection(2, Pending)]
  {
    hide Reachable;
    s := OneInjected();
    s := Advance(s, RunBegins);
    s := Advance(s, Resume);
    s := Advance(s, CoLock);
    s := Advance(s, GuestStep(true, true));
    s := Advance(s, GuestIo(false));
    s := Advance(s, Settle(false, false, false));
    s := Advance(s, SetHandlingIo);
    s := Advance(s, Release);
    s := Advance(s, InjectLock(2));
    s := Advance(s, Inject);
  }
}
