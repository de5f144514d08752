/** The fork server protocol: afl-fuzz (`run_target` and its SIGALRM handler) on one end of two pipes, the
    injected server loop (`__afl_start_forkserver`) on the other, and the child they share, which in
    persistent mode stops itself after each iteration.

    The timeout may strike at any moment while the timer is armed. All other steps are single system
    calls of one of the three processes, interleaved in any order. Children are numbered by fork. */
module ForkServer {
  import opened Wire

  /** How a child ended: by itself, by a signal of its own (a crash), or by the fuzzer's SIGKILL. */
  datatype Cause = Exit | Signal | Killed

  /** `Stopped` is a child that stopped itself; `Dead` one that ended and is not yet waited for; `Reaped`
      one that was. */
  datatype Child = NoChild | Running | Stopped | Dead(cause: Cause) | Reaped

  datatype Status = WasStopped | WasDead(cause: Cause)

  datatype Message = Pid(pid: nat) | Wait(status: Status)

  datatype Fault = NoFault | Hang | Crash

  /** Fuzzer: before a run; request sent; pid read; timer armed; status read; `child_pid` cleared if the
      child is gone; timer off. */
  datatype Fuzzer =
    | Ready | Asked | HasPid | Armed
    | HasStatus(status: Status) | Cleared(status: Status) | Disarmed(status: Status)

  /** Server: reading a request; deciding on the old child; about to fork or continue; pid to write;
      waiting; status to write. */
  datatype Server = Reading | Deciding(wasKilled: bool) | Launching | Launched | Waiting | Relaying(status: Status)

  /** `forks` numbers the current child; `sent`, `pids`, `answers` count the messages written so far and
      `results` holds the outcome of every finished run. */
  datatype State = State(
    persistent: bool,
    fuzzer: Fuzzer, childPid: nat, timer: bool, timedOut: bool, prevTimedOut: bool,
    server: Server, stopped: bool,
    child: Child, forks: nat,
    ctl: seq<bool>, st: seq<Message>,
    sent: nat, pids: nat, answers: nat, results: seq<Fault>)

  datatype Event =
    | SendRequest | ReadPid | Arm | ReadStatus | ClearPid | Disarm | EndRun | Alarm
    | ReadRequest | Decide | Launch | WritePid | WaitChild | WriteStatus
    | ChildStops | ChildExits | ChildCrashes

  ghost predicate Init(s: State) {
    && s.fuzzer == Ready && s.childPid == 0 && !s.timer && !s.timedOut && !s.prevTimedOut
    && s.server == Reading && !s.stopped && s.child == NoChild && s.forks == 0
    && s.ctl == [] && s.st == [] && s.sent == 0 && s.pids == 0 && s.answers == 0 && s.results == []
  }

  /** WIFSIGNALED is true of a crash and of our own SIGKILL alike; the timeout flag is looked at first. */
  function Outcome(timedOut: bool, status: Status): Fault {
    if timedOut then Hang
    else if status.WasDead? && status.cause != Exit then Crash
    else NoFault
  }

  predicate Enabled(s: State, ev: Event) {
    match ev
    case SendRequest => s.fuzzer == Ready
    case ReadPid => s.fuzzer == Asked && s.st != [] && s.st[0].Pid?
    case Arm => s.fuzzer == HasPid
    case ReadStatus => s.fuzzer == Armed && s.st != [] && s.st[0].Wait?
    case ClearPid => s.fuzzer.HasStatus?
    case Disarm => s.fuzzer.Cleared?
    case EndRun => s.fuzzer.Disarmed?
    case Alarm => s.timer
    case ReadRequest => s.server == Reading && s.ctl != []
    // the plain waitpid() of a killed child returns once it is dead
    case Decide => s.server.Deciding? && (s.stopped && s.server.wasKilled ==> s.child.Dead?)
    case Launch => s.server == Launching
    case WritePid => s.server == Launched
    case WaitChild => s.server == Waiting && (s.child.Dead? || (s.persistent && s.child == Stopped))
    case WriteStatus => s.server.Relaying?
    case ChildStops => s.persistent && s.child == Running
    case ChildExits => s.child == Running
    case ChildCrashes => s.child == Running
  }

  function Next(s: State, ev: Event): State
    requires Enabled(s, ev)
  {
    match ev
    case SendRequest => s.(fuzzer := Asked, timedOut := false, ctl := s.ctl + [s.prevTimedOut], sent := s.sent + 1)
    case ReadPid => s.(fuzzer := HasPid, childPid := s.st[0].pid, st := s.st[1..])
    case Arm => s.(fuzzer := Armed, timer := true)
    case ReadStatus => s.(fuzzer := HasStatus(s.st[0].status), st := s.st[1..])
    case ClearPid =>
      s.(fuzzer := Cleared(s.fuzzer.status), childPid := if s.fuzzer.status == WasStopped then s.childPid else 0)
    case Disarm => s.(fuzzer := Disarmed(s.fuzzer.status), timer := false)
    case EndRun =>
      s.(fuzzer := Ready, prevTimedOut := s.timedOut, results := s.results + [Outcome(s.timedOut, s.fuzzer.status)])
    // one-shot timer; the handler kills whatever child_pid names
    case Alarm =>
      if s.childPid > 0 then
        s.(timer := false, timedOut := true,
           child := if s.childPid == s.forks && (s.child == Running || s.child == Stopped) then Dead(Killed) else s.child)
      else s.(timer := false)
    case ReadRequest => s.(server := Deciding(s.ctl[0]), ctl := s.ctl[1..])
    case Decide =>
      if s.stopped && s.server.wasKilled then s.(server := Launching, stopped := false, child := Reaped)
      else s.(server := Launching)
    case Launch =>
      if s.stopped then s.(server := Launched, stopped := false, child := if s.child == Stopped then Running else s.child)
      else s.(server := Launched, child := Running, forks := s.forks + 1)
    case WritePid => s.(server := Waiting, st := s.st + [Pid(s.forks)], pids := s.pids + 1)
    case WaitChild =>
      if s.child.Dead? then s.(server := Relaying(WasDead(s.child.cause)), child := Reaped)
      else s.(server := Relaying(WasStopped))
    case WriteStatus =>
      s.(server := Reading, stopped := s.stopped || s.server.status == WasStopped,
         st := s.st + [Wait(s.server.status)], answers := s.answers + 1)
    case ChildStops => s.(child := Stopped)
    case ChildExits => s.(child := Dead(Exit))
    case ChildCrashes => s.(child := Dead(Signal))
  }

  // ---------------------------------------------------------------------------------------------
  // Invariant

  /** Messages counted since the start: `n` finished runs, plus what the current run has written. */
  ghost predicate Counts(s: State, sent: nat, pids: nat, answers: nat) {
    s.sent == |s.results| + sent && s.pids == |s.results| + pids && s.answers == |s.results| + answers
  }

  /** Where the server must be, and what is in the pipes, given where the fuzzer is: the two ends are in
      lockstep. */
  ghost predicate Lockstep(s: State) {
    match s.fuzzer
    case Ready => s.server == Reading && s.ctl == [] && s.st == [] && Counts(s, 0, 0, 0)
    case Asked =>
      || (s.server == Reading && s.ctl == [s.prevTimedOut] && s.st == [] && Counts(s, 1, 0, 0))
      || (s.server == Deciding(s.prevTimedOut) && s.ctl == [] && s.st == [] && Counts(s, 1, 0, 0))
      || ((s.server == Launching || s.server == Launched) && s.ctl == [] && s.st == [] && Counts(s, 1, 0, 0))
      || ((s.server == Waiting || s.server.Relaying?) && s.ctl == [] && s.st == [Pid(s.forks)] && Counts(s, 1, 1, 0))
      || (s.server == Reading && s.ctl == [] && |s.st| == 2 && s.st[0] == Pid(s.forks) && s.st[1].Wait? && Counts(s, 1, 1, 1))
    case HasPid => s.ctl == [] && Answering(s)
    case Armed => s.ctl == [] && Answering(s)
    case _ => s.ctl == [] && s.st == [] && s.server == Reading && Counts(s, 1, 1, 1)
  }

  /** The pid was read; the status is on its way or waits in the pipe. */
  ghost predicate Answering(s: State) {
    || (s.st == [] && (s.server == Waiting || s.server.Relaying?) && Counts(s, 1, 1, 0))
    || (|s.st| == 1 && s.st[0].Wait? && s.server == Reading && Counts(s, 1, 1, 1))
  }

  /** The status of the current run, once `waitpid` has returned it. */
  ghost function Verdict(s: State): Option<Status> {
    if s.server.Relaying? then Some(s.server.status)
    else if s.fuzzer.HasStatus? || s.fuzzer.Cleared? || s.fuzzer.Disarmed? then Some(s.fuzzer.status)
    else if s.st != [] && s.st[|s.st| - 1].Wait? then Some(s.st[|s.st| - 1].status)
    else None
  }

  /** What the fuzzer believes: the flag of the current run, or, until the server has acted on it, the
      flag that the request carries. */
  ghost predicate Told(s: State) {
    if s.fuzzer == Ready then s.prevTimedOut
    else if s.fuzzer == Asked then (s.ctl != [] || s.server.Deciding?) && s.prevTimedOut
    else s.timedOut
  }

  /** A child that stopped itself is still stopped, unless the fuzzer killed it and knows so. */
  ghost predicate StoppedOk(s: State) {
    s.persistent && s.child == if Told(s) then Dead(Killed) else Stopped
  }

  /** What the server remembers of the child is right. */
  ghost predicate ChildOk(s: State) {
    && (s.child == NoChild <==> s.forks == 0)
    && (s.child == Stopped ==> s.persistent)
    && (s.stopped ==> StoppedOk(s))
    && match s.server
       case Launching => if s.stopped then s.child == Stopped else s.child == NoChild || s.child == Reaped
       case Launched => !s.stopped && s.child != NoChild && s.child != Reaped && s.child != Dead(Killed)
       case Waiting =>
         && !s.stopped && s.child != NoChild && s.child != Reaped
         && (s.child == Dead(Killed) ==> s.timedOut)
         && (s.timedOut ==> s.child.Dead?)
       case Relaying(status) => !s.stopped && if status == WasStopped then StoppedOk(s) else s.child == Reaped
       case _ => s.stopped || s.child == NoChild || s.child == Reaped
  }

  ghost predicate FuzzerOk(s: State) {
    && (s.timer ==> s.fuzzer == Armed || s.fuzzer.HasStatus? || s.fuzzer.Cleared?)
    && (s.fuzzer == Asked || s.fuzzer == HasPid ==> !s.timedOut)
    && (s.fuzzer == HasPid || s.fuzzer == Armed || s.fuzzer.HasStatus? ==> s.childPid == s.forks > 0)
    && (s.fuzzer.Cleared? ==> s.childPid == if s.fuzzer.status == WasStopped then s.forks else 0)
    && (s.fuzzer.Cleared? || s.server == Launched || s.server == Waiting || s.server.Relaying? || s.st != [] ==> s.forks > 0)
  }

  /** The verdict on its way is the one the server acted on, and a kill of ours is known to be ours. */
  ghost predicate VerdictOk(s: State) {
    match Verdict(s)
    case None => true
    case Some(v) =>
      && (s.server == Reading ==> (v == WasStopped <==> s.stopped))
      && (v == WasDead(Killed) ==> s.timedOut)
  }

  ghost predicate Inv(s: State) {
    Lockstep(s) && ChildOk(s) && FuzzerOk(s) && VerdictOk(s)
  }

  lemma StepFuzzer(s: State, ev: Event)
    requires Inv(s) && Enabled(s, ev)
    requires ev == SendRequest || ev == ReadPid || ev == Arm || ev == ReadStatus
    ensures Inv(Next(s, ev))
  {
  }

  lemma StepFuzzerEnd(s: State, ev: Event)
    requires Inv(s) && Enabled(s, ev)
    requires ev == ClearPid || ev == Disarm || ev == EndRun
    ensures Inv(Next(s, ev))
  {
  }

  lemma AlarmLockstep(s: State)
    requires Lockstep(s) && FuzzerOk(s) && Enabled(s, Alarm)
    ensures Lockstep(Next(s, Alarm))
  {
    assert s.fuzzer != Ready && s.fuzzer != Asked;
  }

  lemma AlarmFuzzer(s: State)
    requires FuzzerOk(s) && Enabled(s, Alarm)
    ensures FuzzerOk(Next(s, Alarm))
  {
  }

  lemma AlarmChild(s: State)
    requires Inv(s) && Enabled(s, Alarm)
    ensures ChildOk(Next(s, Alarm))
  {
  }

  lemma AlarmVerdict(s: State)
    requires Inv(s) && Enabled(s, Alarm)
    ensures VerdictOk(Next(s, Alarm))
  {
  }

  lemma StepAlarm(s: State)
    requires Inv(s) && Enabled(s, Alarm)
    ensures Inv(Next(s, Alarm))
  {
    hide Lockstep, ChildOk, FuzzerOk, VerdictOk, Next;
    AlarmLockstep(s);
    AlarmFuzzer(s);
    AlarmChild(s);
    AlarmVerdict(s);
  }

  lemma StepServer(s: State, ev: Event)
    requires Inv(s) && Enabled(s, ev)
    requires ev == ReadRequest || ev == Decide || ev == Launch
    ensures Inv(Next(s, ev))
  {
  }

  lemma StepWait(s: State)
    requires Inv(s) && Enabled(s, WaitChild)
    ensures Inv(Next(s, WaitChild))
  {
  }

  lemma StepWrite(s: State, ev: Event)
    requires Inv(s) && Enabled(s, ev)
    requires ev == WritePid || ev == WriteStatus
    ensures Inv(Next(s, ev))
  {
  }

  lemma StepChild(s: State, ev: Event)
    requires Inv(s) && Enabled(s, ev)
    requires ev == ChildStops || ev == ChildExits || ev == ChildCrashes
    ensures Inv(Next(s, ev))
  {
  }

  lemma StepInv(s: State, ev: Event)
    requires Inv(s) && Enabled(s, ev)
    ensures Inv(Next(s, ev))
  {
    hide Inv, Next, Enabled;
    match ev
    case SendRequest => StepFuzzer(s, ev);
    case ReadPid => StepFuzzer(s, ev);
    case Arm => StepFuzzer(s, ev);
    case ReadStatus => StepFuzzer(s, ev);
    case ClearPid => StepFuzzerEnd(s, ev);
    case Disarm => StepFuzzerEnd(s, ev);
    case EndRun => StepFuzzerEnd(s, ev);
    case Alarm => StepAlarm(s);
    case ReadRequest => StepServer(s, ev);
    case Decide => StepServer(s, ev);
    case Launch => StepServer(s, ev);
    case WritePid => StepWrite(s, ev);
    case WriteStatus => StepWrite(s, ev);
    case WaitChild => StepWait(s);
    case ChildStops => StepChild(s, ev);
    case ChildExits => StepChild(s, ev);
    case ChildCrashes => StepChild(s, ev);
  }

  // ---------------------------------------------------------------------------------------------
  // Runs

  /** A run: its states `tr`, and the event `evs[k]` that leads from `tr[k]` to `tr[k + 1]`. */
  ghost predicate IsRun(tr: seq<State>, evs: seq<Event>) {
    && |tr| == |evs| + 1
    && forall k :: 0 <= k < |evs| ==> Enabled(tr[k], evs[k]) && tr[k + 1] == Next(tr[k], evs[k])
  }

  lemma {:induction false} RunInv(tr: seq<State>, evs: seq<Event>, k: nat)
    requires IsRun(tr, evs) && Init(tr[0]) && k < |tr|
    ensures Inv(tr[k])
  {
    if k > 0 {
      RunInv(tr, evs, k - 1);
      hide Inv, Next, Enabled;
      assert tr[k - 1 + 1] == Next(tr[k - 1], evs[k - 1]);
      StepInv(tr[k - 1], evs[k - 1]);
    }
  }

  /** The child is one the system still holds: alive, or dead and waiting to be reaped. */
  predicate Unreaped(c: Child) { c != NoChild && c != Reaped }

  /** What must hold when an event is taken: no `waitpid` on a child already reaped, no fork while a child
      is unreaped, SIGCONT only to a child that is stopped and alive, the timeout only while a run is
      waited for, and only ever aimed at the child of that run. */
  ghost predicate Sound(s: State, ev: Event) {
    match ev
    case Decide => s.stopped ==> Unreaped(s.child)
    case WaitChild => Unreaped(s.child)
    case Launch => if s.stopped then s.child == Stopped else !Unreaped(s.child)
    case Alarm => s.childPid == s.forks || s.childPid == 0
    case ReadPid => s.st != [] && s.st[0] == Pid(s.forks)
    case _ => true
  }

  lemma StepSound(s: State, ev: Event)
    requires Inv(s) && Enabled(s, ev)
    ensures Sound(s, ev)
  {
  }

  /** Over every run, with timeouts at any moment: every step is sound; whenever the fuzzer is between
      runs, it has sent as many requests as it got pids and statuses, one of each per finished run, and
      nothing is left in the pipes; and the server's idea of the child is right. */
  lemma ForkServerIsSafe(tr: seq<State>, evs: seq<Event>, k: nat)
    requires IsRun(tr, evs) && Init(tr[0]) && k < |tr|
    ensures k < |evs| ==> Sound(tr[k], evs[k])
    ensures var s := tr[k];
      s.fuzzer == Ready ==>
        && s.sent == s.pids == s.answers == |s.results|
        && s.ctl == [] && s.st == []
        && if s.stopped then s.child == (if s.prevTimedOut then Dead(Killed) else Stopped) else !Unreaped(s.child)
  {
    RunInv(tr, evs, k);
    if k < |evs| { StepSound(tr[k], evs[k]); }
  }

  /** A run reported as a crash ended by a signal of the program's own, never by the fuzzer's SIGKILL, even
      though the wait status alone does not tell them apart. */
  lemma CrashIsReal(tr: seq<State>, evs: seq<Event>, k: nat)
    requires IsRun(tr, evs) && Init(tr[0]) && k < |evs| && evs[k] == EndRun
    ensures var s := tr[k];
      var fault := Outcome(s.timedOut, s.fuzzer.status);
      && tr[k + 1].results == s.results + [fault]
      && (fault == Crash <==> s.fuzzer.status == WasDead(Signal) && !s.timedOut)
  {
    RunInv(tr, evs, k);
  }

  /** The timeout struck while the fuzzer knew a child, since the last request. */
  ghost predicate TimeoutSince(tr: seq<State>, evs: seq<Event>, k: nat)
    requires k <= |evs| < |tr|
  {
    k > 0 && evs[k - 1] != SendRequest && ((evs[k - 1] == Alarm && tr[k - 1].childPid > 0) || TimeoutSince(tr, evs, k - 1))
  }

  /** How the server found the child when it waited for it, since the last request. */
  ghost function Found(tr: seq<State>, evs: seq<Event>, k: nat): Option<Status>
    requires k <= |evs| < |tr|
  {
    if k == 0 || evs[k - 1] == SendRequest then None
    else if evs[k - 1] == WaitChild then Some(if tr[k - 1].child.Dead? then WasDead(tr[k - 1].child.cause) else WasStopped)
    else Found(tr, evs, k - 1)
  }

  lemma KnownStep(s: State, ev: Event)
    requires Inv(s) && Enabled(s, ev)
    ensures var t := Next(s, ev);
      && (ev == SendRequest ==> !t.timedOut && Verdict(t) == None)
      && (ev == WaitChild ==>
            && s.fuzzer != Ready && t.timedOut == s.timedOut
            && Verdict(t) == Some(if s.child.Dead? then WasDead(s.child.cause) else WasStopped))
      && (ev != SendRequest && ev != WaitChild && t.fuzzer != Ready ==>
            && s.fuzzer != Ready && Verdict(t) == Verdict(s)
            && t.timedOut == (s.timedOut || (ev == Alarm && s.childPid > 0)))
  {
  }

  lemma {:induction false} KnownOfRun(tr: seq<State>, evs: seq<Event>, k: nat)
    requires IsRun(tr, evs) && Init(tr[0]) && k < |tr| && tr[k].fuzzer != Ready
    ensures tr[k].timedOut == TimeoutSince(tr, evs, k) && Verdict(tr[k]) == Found(tr, evs, k)
  {
    hide Inv, Enabled, Next;
    assert k > 0;
    RunInv(tr, evs, k - 1);
    assert tr[k - 1 + 1] == Next(tr[k - 1], evs[k - 1]);
    KnownStep(tr[k - 1], evs[k - 1]);
    if evs[k - 1] != SendRequest {
      KnownOfRun(tr, evs, k - 1);
    }
  }

  /** What is reported of a run is right: a hang exactly if the timeout struck, otherwise a crash exactly if the
      child was found dead of a signal of its own, otherwise nothing. */
  lemma VerdictIsRight(tr: seq<State>, evs: seq<Event>, k: nat)
    requires IsRun(tr, evs) && Init(tr[0]) && k < |evs| && evs[k] == EndRun
    ensures |tr[k + 1].results| == |tr[k].results| + 1
    ensures var fault, late, found := tr[k + 1].results[|tr[k].results|], TimeoutSince(tr, evs, k), Found(tr, evs, k);
      && (fault == Hang <==> late)
      && (fault == Crash <==> !late && found == Some(WasDead(Signal)))
      && (fault == NoFault <==> !late && (found == Some(WasStopped) || found == Some(WasDead(Exit))))
  {
    RunInv(tr, evs, k);
    assert tr[k + 1] == Next(tr[k], evs[k]);
    KnownOfRun(tr, evs, k);
  }

  /** When the timeout strikes, its SIGKILL goes to a process already waited for exactly if the server has
      seen the child die and the fuzzer has not yet cleared `child_pid`. */
  lemma StrayKill(s: State)
    requires Inv(s) && Enabled(s, Alarm)
    ensures s.childPid > 0 && !Unreaped(s.child) <==>
      !s.fuzzer.Cleared? && Verdict(s).Some? && Verdict(s).value.WasDead?
  {
  }

  ghost predicate Reachable(s: State) {
    exists tr, evs :: IsRun(tr, evs) && Init(tr[0]) && tr[|tr| - 1] == s
  }

  lemma InitReachable(s: State)
    requires Init(s)
    ensures Reachable(s)
  {
    assert IsRun([s], []);
  }

  lemma Advance(s: State, ev: Event) returns (t: State)
    requires Reachable(s) && Enabled(s, ev)
    ensures Reachable(t) && t == Next(s, ev)
  {
    hide Enabled, Next, Init;
    var tr, evs :| IsRun(tr, evs) && Init(tr[0]) && tr[|tr| - 1] == s;
    t := Next(s, ev);
    var tr', evs' := tr + [t], evs + [ev];
    forall k | 0 <= k < |evs'| ensures Enabled(tr'[k], evs'[k]) && tr'[k + 1] == Next(tr'[k], evs'[k]) {
      assert k < |evs| ==> tr'[k] == tr[k] && evs'[k] == evs[k] && tr'[k + 1] == tr[k + 1];
    }
    assert IsRun(tr', evs') && tr'[0] == tr[0];
  }

  lemma FirstLaunch() returns (s: State)
    ensures Reachable(s)
    ensures s == State(false, Asked, 0, false, false, false, Launched, false, Running, 1, [], [], 1, 0, 0, [])
  {
    hide Reachable;
    s := State(false, Ready, 0, false, false, false, Reading, false, NoChild, 0, [], [], 0, 0, 0, []);
    InitReachable(s);
    s := Advance(s, SendRequest);
    s := Advance(s, ReadRequest);
    s := Advance(s, Decide);
    s := Advance(s, Launch);
  }

  /** The first child runs and the fuzzer waits for it, its timer armed. */
  lemma FirstRunArmed() returns (s: State)
    ensures Reachable(s)
    ensures s == State(false, Armed, 1, true, false, false, Waiting, false, Running, 1, [], [], 1, 1, 0, [])
  {
    hide Reachable;
    s := FirstLaunch();
    s := Advance(s, WritePid);
    s := Advance(s, ReadPid);
    s := Advance(s, Arm);
  }

  /** It does happen: the child exits and the server reaps it, and only then the timeout strikes. */
  lemma StrayKillHappens() returns (s: State)
    ensures Reachable(s) && Enabled(s, Alarm) && s.childPid > 0 && !Unreaped(s.child)
  {
    hide Reachable;
    s := FirstRunArmed();
    s := Advance(s, ChildExits);
    s := Advance(s, WaitChild);
  }

  // ---------------------------------------------------------------------------------------------
  // Progress

  /** Some event is always possible: neither end can be left waiting for the other. */
  lemma NoDeadlock(s: State)
    requires Inv(s)
    ensures exists ev :: ev != Alarm && Enabled(s, ev)
  {
    var ev :=
      match s.fuzzer
      case Ready => SendRequest
      case HasPid => Arm
      case HasStatus(_) => ClearPid
      case Cleared(_) => Disarm
      case Disarmed(_) => EndRun
      case _ =>
        match s.server
        case Deciding(_) => Decide
        case Launching => Launch
        case Launched => WritePid
        case Relaying(_) => WriteStatus
        case Waiting => if s.child == Running then ChildExits else WaitChild
        case Reading => if s.ctl != [] then ReadRequest else if s.fuzzer == Asked then ReadPid else ReadStatus;
    assert Enabled(s, ev);
  }

  function FuzzerRank(f: Fuzzer): nat {
    match f
    case Ready => 0
    case Disarmed(_) => 1
    case Cleared(_) => 2
    case HasStatus(_) => 3
    case Armed => 4
    case HasPid => 5
    case Asked => 6
  }

  function ServerRank(v: Server): nat {
    match v
    case Reading => 0
    case Relaying(_) => 1
    case Waiting => 2
    case Launched => 3
    case Launching => 4
    case Deciding(_) => 5
  }

  function ChildRank(c: Child): nat {
    match c
    case Running => 3
    case Stopped => 2
    case Dead(_) => 1
    case _ => 0
  }

  /** An upper bound on the steps the current run can still take. */
  function Remaining(s: State): nat {
    2 * FuzzerRank(s.fuzzer) + (if s.timer then 1 else 0)
    + 4 * (ServerRank(s.server) + 6 * |s.ctl|) + ChildRank(s.child)
  }

  lemma StepShrinks(s: State, ev: Event)
    requires Inv(s) && Enabled(s, ev) && ev != SendRequest
    ensures Remaining(Next(s, ev)) < Remaining(s)
  {
  }

  /** Every run ends: from the moment a request is sent, whatever the schedule, the three processes take
      at most 38 steps until the fuzzer is ready to send the next one. */
  lemma {:induction false} RunsEnd(tr: seq<State>, evs: seq<Event>)
    requires IsRun(tr, evs) && Inv(tr[0]) && SendRequest !in evs
    ensures |evs| + Remaining(tr[|evs|]) <= Remaining(tr[0]) <= 38
    ensures Inv(tr[|evs|])
    ensures (forall ev | ev != SendRequest :: !Enabled(tr[|evs|], ev)) ==> tr[|evs|].fuzzer == Ready
  {
    if |evs| == 0 {
      NoDeadlock(tr[0]);
    } else {
      assert tr[0 + 1] == Next(tr[0], evs[0]);
      StepInv(tr[0], evs[0]);
      StepShrinks(tr[0], evs[0]);
      forall k | 0 <= k < |evs[1..]|
        ensures Enabled(tr[1..][k], evs[1..][k]) && tr[1..][k + 1] == Next(tr[1..][k], evs[1..][k])
      {
        assert tr[k + 1 + 1] == Next(tr[k + 1], evs[k + 1]);
      }
      RunsEnd(tr[1..], evs[1..]);
      RankBound(tr[0]);
    }
  }

  lemma RankBound(s: State)
    requires Inv(s)
    ensures Remaining(s) <= 38
  {
  }

  // ---------------------------------------------------------------------------------------------
  // The loop inside a persistent child

  const TWO32 := 0x1_0000_0000

  /** The statics of `__afl_persistent_loop`. The counter is 32 bits wide and wraps. */
  class PersistentLoop {
    var firstPass: bool
    var cycleCnt: nat

    constructor ()
      ensures firstPass && cycleCnt == 0
    {
      firstPass, cycleCnt := true, 0;
    }

    /** One evaluation of the loop condition; `stops` tells whether the child stopped itself on the way. */
    method Again(persistent: bool, maxCnt: nat) returns (again: bool, stops: bool)
      requires maxCnt < TWO32 && cycleCnt < TWO32
      modifies this
      ensures !firstPass && cycleCnt < TWO32
      ensures old(firstPass) ==> again && !stops && cycleCnt == maxCnt
      ensures !old(firstPass) && !persistent ==> !again && !stops && cycleCnt == old(cycleCnt)
      ensures !old(firstPass) && persistent ==>
        again == stops == (old(cycleCnt) != 1) && cycleCnt == (old(cycleCnt) - 1) % TWO32
    {
      if firstPass {
        firstPass, cycleCnt := false, maxCnt;
        return true, false;
      }
      if persistent {
        cycleCnt := (cycleCnt - 1) % TWO32;
        if cycleCnt != 0 {
          return true, true;
        }
      }
      return false, false;
    }
  }

  /** A whole `while (__AFL_LOOP(n))`: the body runs once without the fork server's persistent mode, and
      otherwise exactly n times, stopping in between; an n of zero wraps and gives 2^32 iterations. */
  method RunLoop(persistent: bool, maxCnt: nat) returns (iterations: nat, stops: nat)
    requires maxCnt < TWO32
    ensures iterations == if !persistent then 1 else if maxCnt == 0 then TWO32 else maxCnt
    ensures stops == iterations - 1
  {
    var loop := new PersistentLoop();
    iterations, stops := 0, 0;
    var again, stopped := loop.Again(persistent, maxCnt);
    ghost var total := if !persistent then 1 else if maxCnt == 0 then TWO32 else maxCnt;
    while again
      invariant fresh(loop) && !loop.firstPass && loop.cycleCnt < TWO32
      invariant again ==> iterations < total && stops == iterations
      invariant !again ==> iterations == total && stops == iterations - 1
      invariant again && persistent ==> loop.cycleCnt == (total - iterations) % TWO32
      decreases total - iterations, again
    {
      iterations := iterations + 1;
      again, stopped := loop.Again(persistent, maxCnt);
      if stopped { stops := stops + 1; }
    }
  }
}
