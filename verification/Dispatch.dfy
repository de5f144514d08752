/** Multi-QEMU dispatch: the fuzzer hands test cases to several QEMU instances through per-instance
    files and control pipes, and learns of finished tests through a ready byte per instance and a FIFO
    of completion records.

    Both sides are modelled as steps of one transition system. On the fuzzer side these are the pieces of
    `write_to_testcase`, `run_target`, `WAIT_ALLQEMUS_FREE` and `process_unhandled_qemus` between which
    the instances can act; on the QEMU side `wait_afl_testcase`, `tell_afl` and `report_redundant`.
    Instances are numbered by their index in `allQemus`, tests by the order of their dispatch. */
module Dispatch {
  import opened Wire

  /** What an instance is doing. A finished test is announced by a FIFO record and then by the ready
      byte; `Posted` lies between the two. With the opposite order `Late` lies between them. */
  datatype Phase = Booting | Waiting | Running(test: nat) | Posted(test: nat) | Late

  /** Contents of an instance's coverage map: `Mixed` if a test ran on a map that was not cleared before. */
  datatype Map = Unused | Cleared | Complete(test: nat) | Mixed

  /** The map after a test ran on it. */
  function Traced(m: Map, t: nat): Map { if m == Cleared then Complete(t) else Mixed }

  datatype Instance = Instance(
    // fuzzer side: QemuInstance
    started: bool, handled: bool, buffer: Option<nat>,
    // shared with the instance
    ready: bool, file: Option<nat>, pipe: bool, trace: Map,
    // QEMU side
    phase: Phase)

  /** Where the fuzzer is. `Taken(i)`: a record of instance `i` was read and its ready byte is awaited.
      `Written(i)`: a test was written for `i`, `run_target` comes next. `Scanning(k)`: the barrier has
      seen the ready bytes of the first `k` instances. `Draining`: the barrier empties the FIFO. */
  datatype Pc = Idle | Taken(i: nat) | Written(i: nat) | Scanning(k: nat) | Draining

  /** One result analysis: the test, the instance it ran on, and the instance whose map
      `has_new_bits` looks at, which is always `curQemu`. */
  datatype Analysis = Analysis(test: nat, instance: nat, examined: nat)

  datatype State = State(
    q: seq<Instance>, fifo: seq<nat>, pc: Pc, cur: nat,
    isAfterWait: bool, currentAfterWait: nat,
    next: nat, dispatched: nat, totalExecs: nat, log: seq<Analysis>)

  datatype Event =
    // fuzzer
    | TakeRecord | FeedTaken | FeedRoundRobin | Start | BeginWait | ScanReady | ScanBusy | DrainOne | DrainDone
    // instance i
    | Boot(i: nat) | Receive(i: nat) | Finish(i: nat) | Announce(i: nat)

  ghost predicate Init(s: State, n: nat) {
    && n > 0 && |s.q| == n
    && (forall i :: 0 <= i < n ==> s.q[i] == Instance(false, true, None, true, None, false, Unused, Booting))
    && s.fifo == [] && s.pc == Idle && s.cur == 0 && !s.isAfterWait && s.currentAfterWait == 0
    && s.next == 0 && s.dispatched == 0 && s.totalExecs == 0 && s.log == []
  }

  // ---------------------------------------------------------------------------------------------
  // Steps

  function Put(s: State, i: nat, v: Instance): State
    requires i < |s.q|
  {
    s.(q := s.q[i := v])
  }

  /** `handle_onetestdone`: analyse the result and free the buffer. */
  function Handle(s: State, i: nat): State
    requires i < |s.q| && s.q[i].buffer.Some?
  {
    s.(q := s.q[i := s.q[i].(handled := true, buffer := None)],
       totalExecs := s.totalExecs + 1,
       log := s.log + [Analysis(s.q[i].buffer.value, i, s.cur)])
  }

  /** A result that must be analysed before instance `i` gets its next test has its buffer. */
  predicate CanWrite(s: State, i: nat) {
    i < |s.q| && (s.q[i].started && !s.q[i].handled ==> s.q[i].buffer.Some?)
  }

  /** The part of `write_to_testcase` from label `write` on: analyse what is left over, then write the
      next test case to the instance's directory and keep a copy. */
  function WriteTest(s: State, i: nat): State
    requires CanWrite(s, i)
  {
    var s1 := if s.q[i].started && !s.q[i].handled then Handle(s, i) else s;
    s1.(q := s1.q[i := s1.q[i].(buffer := Some(s.next), file := Some(s.next))], pc := Written(i), next := s.next + 1)
  }

  predicate Enabled(s: State, ev: Event, recordFirst: bool) {
    match ev
    case TakeRecord => s.pc == Idle && !s.isAfterWait && s.fifo != [] && s.fifo[0] < |s.q|
    case FeedTaken => s.pc.Taken? && s.pc.i < |s.q| && s.q[s.pc.i].ready
    case FeedRoundRobin => s.pc == Idle && s.isAfterWait && s.currentAfterWait < |s.q|
    case Start => s.pc.Written? && s.pc.i < |s.q|
    case BeginWait => s.pc == Idle
    case ScanReady => s.pc.Scanning? && s.pc.k < |s.q| && s.q[s.pc.k].ready
    case ScanBusy => s.pc.Scanning? && s.pc.k < |s.q| && !s.q[s.pc.k].ready
    case DrainOne => s.pc == Draining && s.fifo != []
    case DrainDone => s.pc == Draining && s.fifo == []
    case Boot(i) => i < |s.q| && s.q[i].phase == Booting
    case Receive(i) => i < |s.q| && s.q[i].phase == Waiting && s.q[i].pipe && s.q[i].file.Some?
    case Finish(i) => i < |s.q| && s.q[i].phase.Running?
    case Announce(i) => i < |s.q| && (if recordFirst then s.q[i].phase.Posted? else s.q[i].phase == Late)
  }

  /** `Next` is defined; that this always holds is `BufferPresent`. */
  predicate Defined(s: State, ev: Event) {
    match ev
    case FeedTaken => s.pc.Taken? && CanWrite(s, s.pc.i)
    case FeedRoundRobin => CanWrite(s, s.currentAfterWait)
    case _ => true
  }

  function Next(s: State, ev: Event, recordFirst: bool): State
    requires Enabled(s, ev, recordFirst) && Defined(s, ev)
  {
    match ev
    case TakeRecord => s.(fifo := s.fifo[1..], pc := Taken(s.fifo[0]), cur := s.fifo[0])
    case FeedTaken => WriteTest(s, s.pc.i)
    case FeedRoundRobin =>
      var i := s.currentAfterWait;
      var last := i + 1 == |s.q|;
      WriteTest(s.(cur := i, isAfterWait := !last, currentAfterWait := if last then 0 else i + 1), i)
    case Start =>
      var i := s.pc.i;
      Put(s, i, s.q[i].(trace := Cleared, started := true, ready := false, handled := false, pipe := true))
        .(pc := Idle, dispatched := s.dispatched + 1)
    case BeginWait => s.(pc := Scanning(0))
    case ScanReady => s.(pc := if s.pc.k + 1 == |s.q| then Draining else Scanning(s.pc.k + 1))
    case ScanBusy => s.(pc := Scanning(0))
    case DrainOne =>
      var i := s.fifo[0];
      var s1 := s.(fifo := s.fifo[1..]);
      if i < |s.q| && !s.q[i].handled && s.q[i].buffer.Some? then Handle(s1, i) else s1
    case DrainDone => s.(pc := Idle, isAfterWait := true, currentAfterWait := 0)
    case Boot(i) => Put(s, i, s.q[i].(phase := Waiting)).(fifo := s.fifo + [i])
    case Receive(i) => Put(s, i, s.q[i].(phase := Running(s.q[i].file.value), pipe := false))
    case Finish(i) =>
      var t := s.q[i].phase.test;
      var trace := Traced(s.q[i].trace, t);
      if recordFirst then Put(s, i, s.q[i].(phase := Posted(t), trace := trace)).(fifo := s.fifo + [i])
      else Put(s, i, s.q[i].(phase := Late, trace := trace, ready := true))
    case Announce(i) =>
      if recordFirst then Put(s, i, s.q[i].(phase := Waiting, ready := true))
      else Put(s, i, s.q[i].(phase := Waiting)).(fifo := s.fifo + [i])
  }

  // ---------------------------------------------------------------------------------------------
  // Invariant

  /** What holds of one instance; `written` says that a test was just written for it. */
  ghost predicate InstanceOk(v: Instance, written: bool, next: nat) {
    // an instance is ready exactly while it has no request and runs no test
    && (v.ready ==> !v.pipe && (v.phase == Booting || v.phase == Waiting || v.phase == Late))
    && (!v.ready ==> v.started && !v.handled && (v.pipe || v.phase.Running? || v.phase.Posted?))
    && (v.pipe ==> v.phase == Booting || v.phase == Waiting || v.phase == Late)
    && (!v.started ==> v.handled)
    // the buffer holds the unanalysed test, and that is the test in the instance's directory
    && (!v.handled || written ==> v.buffer.Some? && v.file == v.buffer && v.buffer.value < next)
    && (v.handled && !written ==> v.buffer.None?)
    && (written ==> v.handled && v.ready)
    && (v.phase.Running? || v.phase.Posted? ==> v.buffer == Some(v.phase.test))
    // a test runs on a cleared map, and once it is over the map is its complete trace
    && (v.pipe || v.phase.Running? ==> v.trace == Cleared)
    && (!v.handled && (v.ready || v.phase.Posted?) ==> v.trace == Complete(v.buffer.value))
  }

  ghost predicate WrittenFor(s: State, i: nat) { s.pc == Written(i) }

  ghost predicate InstancesOk(s: State) {
    forall i :: 0 <= i < |s.q| ==> InstanceOk(s.q[i], WrittenFor(s, i), s.next)
  }

  /** Analysed tests are distinct, and none of them sits in a buffer. */
  ghost predicate LogOk(s: State) {
    && (forall k :: 0 <= k < |s.log| ==> s.log[k].test < s.next && s.log[k].instance < |s.q|)
    && (forall k, l :: 0 <= k < l < |s.log| ==> s.log[k].test != s.log[l].test)
    && (forall i, k :: 0 <= i < |s.q| && 0 <= k < |s.log| && s.q[i].buffer.Some? ==> s.log[k].test != s.q[i].buffer.value)
    && (forall i, j :: 0 <= i < j < |s.q| && s.q[i].buffer.Some? ==> s.q[i].buffer != s.q[j].buffer)
  }

  /** Positions of the fuzzer are in range, and what it has seen of the ready bytes still holds. */
  ghost predicate PcOk(s: State) {
    && (s.pc.Taken? ==> s.pc.i < |s.q| && s.cur == s.pc.i && !s.isAfterWait)
    && (s.pc.Written? ==> s.pc.i < |s.q| && s.cur == s.pc.i)
    && (s.pc.Scanning? ==> s.pc.k < |s.q| && forall j :: 0 <= j < s.pc.k ==> s.q[j].ready)
    && (s.pc == Draining ==> forall j :: 0 <= j < |s.q| ==> s.q[j].ready)
    && s.cur < |s.q|
    && (forall k :: 0 <= k < |s.fifo| ==> s.fifo[k] < |s.q|)
    && (s.isAfterWait ==> s.currentAfterWait < |s.q|
                          && forall j :: s.currentAfterWait <= j < |s.q| ==> s.q[j].ready && !WrittenFor(s, j))
    && (!s.isAfterWait ==> s.currentAfterWait == 0)
  }

  ghost predicate InLog(s: State, t: nat) { exists k :: 0 <= k < |s.log| && s.log[k].test == t }
  ghost predicate InBuffer(s: State, t: nat) { exists i :: 0 <= i < |s.q| && s.q[i].buffer == Some(t) }

  /** No test is lost: each one was analysed or is still buffered, and a map whose instance has nothing
      left to analyse belongs to an analysed test. */
  ghost predicate Accounted(s: State) {
    && (forall t :: 0 <= t < s.next ==> InLog(s, t) || InBuffer(s, t))
    && (forall i :: 0 <= i < |s.q| && s.q[i].handled && s.q[i].trace.Complete? ==> InLog(s, s.q[i].trace.test))
  }

  function Unhandled(q: seq<Instance>): nat {
    if q == [] then 0 else Unhandled(q[..|q| - 1]) + (if q[|q| - 1].handled then 0 else 1)
  }

  /** Every dispatched test is analysed or still to be analysed. */
  ghost predicate Conserved(s: State) {
    && s.totalExecs == |s.log|
    && s.dispatched == s.totalExecs + Unhandled(s.q)
    && s.next == s.dispatched + (if s.pc.Written? then 1 else 0)
  }

  /** The record of a finished, unanalysed test is still in the FIFO or was just taken. */
  ghost predicate RecordKept(s: State) {
    forall i :: 0 <= i < |s.q| && !s.q[i].handled && (s.q[i].ready || s.q[i].phase.Posted?) ==>
      i in s.fifo || s.pc == Taken(i)
  }

  ghost predicate PhasesMatch(s: State, recordFirst: bool) {
    && (forall i :: 0 <= i < |s.q| ==> if recordFirst then s.q[i].phase != Late else !s.q[i].phase.Posted?)
    && (recordFirst ==> RecordKept(s))
    && (recordFirst && s.isAfterWait ==> forall j :: s.currentAfterWait <= j < |s.q| ==> s.q[j].handled)
  }

  ghost predicate Inv(s: State, recordFirst: bool) {
    && |s.q| > 0
    && InstancesOk(s) && LogOk(s) && PcOk(s) && Conserved(s) && PhasesMatch(s, recordFirst) && Accounted(s)
  }

  lemma {:induction false} UnhandledUpdate(q: seq<Instance>, i: nat, v: Instance)
    requires i < |q|
    ensures Unhandled(q[i := v]) + (if q[i].handled then 0 else 1) == Unhandled(q) + (if v.handled then 0 else 1)
  {
    var n := |q| - 1;
    if i == n {
      assert q[i := v][..n] == q[..n];
    } else {
      assert q[i := v][..n] == q[..n][i := v];
      UnhandledUpdate(q[..n], i, v);
    }
  }

  lemma {:induction false} AllHandled(q: seq<Instance>)
    requires forall i :: 0 <= i < |q| ==> q[i].handled
    ensures Unhandled(q) == 0
  {
    if q != [] {
      AllHandled(q[..|q| - 1]);
    }
  }

  lemma InitInv(s: State, n: nat, recordFirst: bool)
    requires Init(s, n)
    ensures Inv(s, recordFirst)
  {
    AllHandled(s.q);
  }

  /** An analysis is never attempted without a buffered test. */
  lemma BufferPresent(s: State, ev: Event, recordFirst: bool)
    requires Inv(s, recordFirst) && Enabled(s, ev, recordFirst)
    ensures Defined(s, ev)
  {
    if ev == FeedTaken {
      assert InstanceOk(s.q[s.pc.i], WrittenFor(s, s.pc.i), s.next);
    } else if ev == FeedRoundRobin {
      assert InstanceOk(s.q[s.currentAfterWait], WrittenFor(s, s.currentAfterWait), s.next);
    }
  }

  // ---------------------------------------------------------------------------------------------
  // Every step keeps the invariant

  lemma LogFrame(s: State, s': State)
    requires LogOk(s) && |s'.q| == |s.q| && s'.log == s.log && s'.next == s.next
    requires forall j :: 0 <= j < |s.q| ==> s'.q[j].buffer == s.q[j].buffer
    ensures LogOk(s')
  {
  }

  /** Buffers, log and finished maps unchanged. */
  lemma AccountFrame(s: State, s': State)
    requires Accounted(s) && |s'.q| == |s.q| && s'.log == s.log && s'.next == s.next
    requires forall j :: 0 <= j < |s.q| ==> s'.q[j].buffer == s.q[j].buffer
    requires forall j :: 0 <= j < |s.q| && s'.q[j].handled && s'.q[j].trace.Complete? ==>
               s.q[j].handled && s'.q[j].trace == s.q[j].trace
    ensures Accounted(s')
  {
    forall t | 0 <= t < s'.next
      ensures InLog(s', t) || InBuffer(s', t)
    {
      assert InLog(s, t) || InBuffer(s, t);
      if InBuffer(s, t) {
        var i :| 0 <= i < |s.q| && s.q[i].buffer == Some(t);
        assert s'.q[i].buffer == Some(t);
      }
    }
    assert forall t :: InLog(s, t) ==> InLog(s', t);
  }

  lemma HandleAccounted(s: State, i: nat)
    requires Accounted(s) && i < |s.q| && s.q[i].buffer.Some? && s.q[i].trace == Complete(s.q[i].buffer.value)
    ensures Accounted(Handle(s, i))
  {
    var s' := Handle(s, i);
    assert s'.log[|s.log|].test == s.q[i].buffer.value;
    forall t | InLog(s, t)
      ensures InLog(s', t)
    {
      var k :| 0 <= k < |s.log| && s.log[k].test == t;
      assert s'.log[k].test == t;
    }
    forall t | 0 <= t < s'.next
      ensures InLog(s', t) || InBuffer(s', t)
    {
      assert InLog(s, t) || InBuffer(s, t);
      if InBuffer(s, t) {
        var j :| 0 <= j < |s.q| && s.q[j].buffer == Some(t);
        assert j != i ==> s'.q[j].buffer == Some(t);
      }
    }
  }

  lemma FreshAccounted(s: State, s': State, i: nat)
    requires Accounted(s) && i < |s.q| && s.q[i].buffer.None?
    requires s' == s.(q := s.q[i := s.q[i].(buffer := Some(s.next), file := Some(s.next))], pc := Written(i), next := s.next + 1)
    ensures Accounted(s')
  {
    assert s'.q[i].buffer == Some(s.next);
    assert forall t :: InLog(s, t) ==> InLog(s', t);
    forall t | 0 <= t < s'.next
      ensures InLog(s', t) || InBuffer(s', t)
    {
      if t < s.next {
        assert InLog(s, t) || InBuffer(s, t);
        if InBuffer(s, t) {
          var j :| 0 <= j < |s.q| && s.q[j].buffer == Some(t);
          assert s'.q[j].buffer == Some(t);
        }
      }
    }
  }

  lemma PcFrame(s: State, s': State, i: nat)
    requires PcOk(s) && |s'.q| == |s.q| && i < |s.q|
    requires s'.pc == s.pc && s'.cur == s.cur && s'.isAfterWait == s.isAfterWait && s'.currentAfterWait == s.currentAfterWait
    requires s'.fifo == s.fifo || s'.fifo == s.fifo + [i]
    requires forall j :: 0 <= j < |s.q| && s.q[j].ready ==> s'.q[j].ready
    ensures PcOk(s')
  {
  }

  lemma InstancesFrame(s: State, s': State, i: nat)
    requires InstancesOk(s) && |s'.q| == |s.q| && s'.next == s.next && s'.pc == s.pc && i < |s.q|
    requires forall j :: 0 <= j < |s.q| && j != i ==> s'.q[j] == s.q[j]
    requires InstanceOk(s'.q[i], WrittenFor(s, i), s.next)
    ensures InstancesOk(s')
  {
    hide InstanceOk;
    assert forall j :: 0 <= j < |s.q| ==> WrittenFor(s', j) == WrittenFor(s, j);
  }

  /** An instance moves: its buffer and its `handled` flag stay, its ready byte can only be raised, and
      records are only added. */
  lemma InstanceMoves(s: State, i: nat, v: Instance, fifo: seq<nat>)
    requires |s.q| > 0 && InstancesOk(s) && LogOk(s) && PcOk(s) && Conserved(s) && i < |s.q|
    requires InstanceOk(v, WrittenFor(s, i), s.next)
    requires v.buffer == s.q[i].buffer && v.handled == s.q[i].handled && (s.q[i].ready ==> v.ready)
    requires fifo == s.fifo || fifo == s.fifo + [i]
    ensures var s' := Put(s, i, v).(fifo := fifo); InstancesOk(s') && LogOk(s') && PcOk(s') && Conserved(s')
  {
    var s' := Put(s, i, v).(fifo := fifo);
    hide Unhandled, InstanceOk, InstancesOk, LogOk, PcOk;
    UnhandledUpdate(s.q, i, v);
    InstancesFrame(s, s', i);
    LogFrame(s, s');
    PcFrame(s, s', i);
  }

  lemma StepInstance(s: State, ev: Event, recordFirst: bool)
    requires Inv(s, recordFirst) && Enabled(s, ev, recordFirst)
    requires ev.Boot? || ev.Receive? || ev.Finish? || ev.Announce?
    ensures Inv(Next(s, ev, recordFirst), recordFirst)
  {
    hide Unhandled, LogOk, PcOk, Conserved, Accounted;
    var s' := Next(s, ev, recordFirst);
    assert InstanceOk(s.q[ev.i], WrittenFor(s, ev.i), s.next);
    InstanceMoves(s, ev.i, s'.q[ev.i], s'.fifo);
    AccountFrame(s, s');
    assert s' == Put(s, ev.i, s'.q[ev.i]).(fifo := s'.fifo);
    if recordFirst {
      assert RecordKept(s);
      assert forall j :: j in s.fifo ==> j in s'.fifo;
      assert ev.Finish? ==> ev.i in s'.fifo;
    }
  }

  lemma StepTake(s: State, recordFirst: bool)
    requires Inv(s, recordFirst) && Enabled(s, TakeRecord, recordFirst)
    ensures Inv(Next(s, TakeRecord, recordFirst), recordFirst)
  {
    hide Unhandled, InstanceOk, LogOk, Accounted;
    var s' := Next(s, TakeRecord, recordFirst);
    assert forall j :: 0 <= j < |s.q| ==> WrittenFor(s', j) == WrittenFor(s, j) == false;
    LogFrame(s, s');
    AccountFrame(s, s');
    assert PcOk(s');
    if recordFirst {
      assert RecordKept(s);
      assert forall j :: j in s.fifo ==> j in s'.fifo || s'.pc == Taken(j);
    }
  }

  lemma StepScan(s: State, ev: Event, recordFirst: bool)
    requires Inv(s, recordFirst) && Enabled(s, ev, recordFirst)
    requires ev == BeginWait || ev == ScanReady || ev == ScanBusy
    ensures Inv(Next(s, ev, recordFirst), recordFirst)
  {
    hide Unhandled, InstanceOk, LogOk, Accounted;
    var s' := Next(s, ev, recordFirst);
    assert forall j :: 0 <= j < |s.q| ==> WrittenFor(s', j) == WrittenFor(s, j) == false;
    LogFrame(s, s');
    AccountFrame(s, s');
    if recordFirst {
      assert RecordKept(s);
    }
  }

  /** Analysing a finished test keeps every part of the invariant that speaks of tests. */
  lemma HandleOk(s: State, i: nat)
    requires |s.q| > 0 && InstancesOk(s) && LogOk(s) && i < |s.q| && !s.q[i].handled && s.q[i].ready && s.cur < |s.q|
    ensures s.q[i].buffer.Some?
    ensures InstancesOk(Handle(s, i)) && LogOk(Handle(s, i))
    ensures Unhandled(Handle(s, i).q) + 1 == Unhandled(s.q)
  {
    assert InstanceOk(s.q[i], WrittenFor(s, i), s.next);
    var s' := Handle(s, i);
    UnhandledUpdate(s.q, i, s'.q[i]);
    hide Unhandled;
    forall j | 0 <= j < |s.q|
      ensures InstanceOk(s'.q[j], WrittenFor(s', j), s'.next)
    {
      assert InstanceOk(s.q[j], WrittenFor(s, j), s.next);
    }
  }

  lemma StepDrain(s: State, recordFirst: bool)
    requires Inv(s, recordFirst) && Enabled(s, DrainOne, recordFirst)
    ensures Inv(Next(s, DrainOne, recordFirst), recordFirst)
  {
    hide Unhandled, LogOk, Accounted;
    var s' := Next(s, DrainOne, recordFirst);
    var i := s.fifo[0];
    var s1 := s.(fifo := s.fifo[1..]);
    assert InstanceOk(s.q[i], WrittenFor(s, i), s.next);
    hide InstanceOk;
    assert forall j :: j in s.fifo ==> j in s'.fifo || j == i;
    LogFrame(s, s1);
    AccountFrame(s, s1);
    assert InstancesOk(s1) by {
      assert forall j :: 0 <= j < |s.q| ==> WrittenFor(s1, j) == WrittenFor(s, j);
    }
    if !s.q[i].handled {
      HandleOk(s1, i);
      HandleAccounted(s1, i);
    }
    assert PcOk(s');
    if recordFirst {
      assert RecordKept(s);
      assert RecordKept(s');
    }
  }

  lemma StepDrainDone(s: State, recordFirst: bool)
    requires Inv(s, recordFirst) && Enabled(s, DrainDone, recordFirst)
    ensures Inv(Next(s, DrainDone, recordFirst), recordFirst)
    ensures recordFirst ==> forall j :: 0 <= j < |s.q| ==> s.q[j].handled
  {
    hide Unhandled, InstanceOk, LogOk, Accounted;
    var s' := Next(s, DrainDone, recordFirst);
    assert forall j :: 0 <= j < |s.q| ==> WrittenFor(s', j) == WrittenFor(s, j) == false;
    LogFrame(s, s');
    AccountFrame(s, s');
    if recordFirst {
      assert RecordKept(s);
    }
  }

  lemma StepStart(s: State, recordFirst: bool)
    requires Inv(s, recordFirst) && Enabled(s, Start, recordFirst)
    ensures Inv(Next(s, Start, recordFirst), recordFirst)
  {
    hide Unhandled, LogOk, Accounted;
    var s' := Next(s, Start, recordFirst);
    var i := s.pc.i;
    UnhandledUpdate(s.q, i, s'.q[i]);
    LogFrame(s, s');
    AccountFrame(s, s');
    assert InstanceOk(s.q[i], WrittenFor(s, i), s.next);
    assert InstanceOk(s'.q[i], WrittenFor(s', i), s'.next);
    hide InstanceOk;
    assert InstancesOk(s') by {
      assert forall j :: 0 <= j < |s.q| && j != i ==> WrittenFor(s', j) == WrittenFor(s, j);
    }
    assert PcOk(s');
    if recordFirst {
      assert RecordKept(s);
    }
  }

  /** Writing a test for a ready instance. */
  lemma WriteOk(s: State, i: nat, recordFirst: bool)
    requires |s.q| > 0 && InstancesOk(s) && LogOk(s) && Conserved(s) && Accounted(s) && i < |s.q| && s.q[i].ready && s.cur == i
    requires !s.pc.Written?
    ensures CanWrite(s, i)
    ensures var s' := WriteTest(s, i);
            && InstancesOk(s') && LogOk(s') && Conserved(s') && Accounted(s')
            && (forall j :: 0 <= j < |s.q| && j != i ==> s'.q[j] == s.q[j])
            && s'.q[i].ready && s'.q[i].handled && s'.q[i].phase == s.q[i].phase
  {
    hide Unhandled, LogOk, Accounted;
    assert InstanceOk(s.q[i], WrittenFor(s, i), s.next);
    var s1 := s;
    if s.q[i].started && !s.q[i].handled {
      HandleOk(s, i);
      HandleAccounted(s, i);
      s1 := Handle(s, i);
    }
    var s' := WriteTest(s, i);
    UnhandledUpdate(s1.q, i, s'.q[i]);
    FreshTest(s1, s', i);
    FreshAccounted(s1, s', i);
  }


  lemma FreshTest(s: State, s': State, i: nat)
    requires InstancesOk(s) && LogOk(s) && i < |s.q| && s.q[i].handled && s.q[i].ready && !s.pc.Written?
    requires s' == s.(q := s.q[i := s.q[i].(buffer := Some(s.next), file := Some(s.next))], pc := Written(i), next := s.next + 1)
    ensures LogOk(s') && InstancesOk(s')
  {
    forall j | 0 <= j < |s.q|
      ensures InstanceOk(s'.q[j], WrittenFor(s', j), s'.next)
      ensures s.q[j].buffer.Some? ==> s.q[j].buffer.value < s.next
    {
      assert InstanceOk(s.q[j], WrittenFor(s, j), s.next);
    }
  }

  lemma StepFeedTaken(s: State, recordFirst: bool)
    requires Inv(s, recordFirst) && Enabled(s, FeedTaken, recordFirst)
    ensures Defined(s, FeedTaken)
    ensures Inv(Next(s, FeedTaken, recordFirst), recordFirst)
  {
    hide Unhandled, InstanceOk, LogOk, Accounted;
    WriteOk(s, s.pc.i, recordFirst);
    var s' := Next(s, FeedTaken, recordFirst);
    assert s'.fifo == s.fifo && s'.isAfterWait == s.isAfterWait;
    assert PcOk(s');
    if recordFirst {
      assert RecordKept(s);
      assert RecordKept(s');
    }
  }

  lemma StepRoundRobin(s: State, recordFirst: bool)
    requires Inv(s, recordFirst) && Enabled(s, FeedRoundRobin, recordFirst)
    ensures Defined(s, FeedRoundRobin)
    ensures Inv(Next(s, FeedRoundRobin, recordFirst), recordFirst)
  {
    hide Unhandled, InstanceOk, LogOk, Accounted;
    var i := s.currentAfterWait;
    var last := i + 1 == |s.q|;
    var s1 := s.(cur := i, isAfterWait := !last, currentAfterWait := if last then 0 else i + 1);
    assert InstancesOk(s1) by {
      assert forall j :: 0 <= j < |s.q| ==> WrittenFor(s1, j) == WrittenFor(s, j);
    }
    LogFrame(s, s1);
    AccountFrame(s, s1);
    WriteOk(s1, i, recordFirst);
    var s' := Next(s, FeedRoundRobin, recordFirst);
    assert PcOk(s');
    if recordFirst {
      assert RecordKept(s);
      assert RecordKept(s');
    }
  }

  lemma StepOk(s: State, ev: Event, recordFirst: bool)
    requires Inv(s, recordFirst) && Enabled(s, ev, recordFirst)
    ensures Defined(s, ev) && Inv(Next(s, ev, recordFirst), recordFirst)
  {
    hide Inv, Next;
    BufferPresent(s, ev, recordFirst);
    match ev
    case TakeRecord => StepTake(s, recordFirst);
    case FeedTaken => StepFeedTaken(s, recordFirst);
    case FeedRoundRobin => StepRoundRobin(s, recordFirst);
    case Start => StepStart(s, recordFirst);
    case BeginWait => StepScan(s, ev, recordFirst);
    case ScanReady => StepScan(s, ev, recordFirst);
    case ScanBusy => StepScan(s, ev, recordFirst);
    case DrainOne => StepDrain(s, recordFirst);
    case DrainDone => StepDrainDone(s, recordFirst);
    case _ => StepInstance(s, ev, recordFirst);
  }

  // ---------------------------------------------------------------------------------------------
  // Runs

  /** A run: states `tr` and the events between them. */
  ghost predicate IsRun(tr: seq<State>, evs: seq<Event>, n: nat, recordFirst: bool) {
    && |tr| == |evs| + 1
    && Init(tr[0], n)
    && forall k :: 0 <= k < |evs| ==>
         Enabled(tr[k], evs[k], recordFirst) && Defined(tr[k], evs[k]) && tr[k + 1] == Next(tr[k], evs[k], recordFirst)
  }

  lemma {:induction false} RunInv(tr: seq<State>, evs: seq<Event>, n: nat, recordFirst: bool, k: nat)
    requires IsRun(tr, evs, n, recordFirst) && k <= |evs|
    ensures Inv(tr[k], recordFirst)
  {
    if k == 0 {
      InitInv(tr[0], n, recordFirst);
    } else {
      RunInv(tr, evs, n, recordFirst, k - 1);
      StepOk(tr[k - 1], evs[k - 1], recordFirst);
    }
  }

  /** In every run, for either order of record and ready byte: a test is only written for, and started
      on, an instance whose ready byte is set and which runs nothing; when a test is started, the map
      that gets cleared belongs to an analysed test; and the ready byte is clear whenever an instance is
      about to set it. */
  lemma DispatchIsSafe(tr: seq<State>, evs: seq<Event>, n: nat, recordFirst: bool, k: nat)
    requires IsRun(tr, evs, n, recordFirst) && k < |evs|
    ensures evs[k] == FeedTaken || evs[k] == FeedRoundRobin || evs[k] == Start ==>
              var i := if evs[k] == FeedRoundRobin then tr[k].currentAfterWait else tr[k].pc.i;
              i < |tr[k].q| && tr[k].q[i].ready && !tr[k].q[i].pipe && !tr[k].q[i].phase.Running?
    ensures evs[k] == Start ==>
              var v := tr[k].q[tr[k].pc.i];
              v.handled && (v.trace.Complete? ==> InLog(tr[k], v.trace.test)) && v.file == v.buffer && v.buffer.Some?
    ensures evs[k].Announce? && recordFirst ==> !tr[k].q[evs[k].i].ready
    ensures evs[k].Finish? && !recordFirst ==> !tr[k].q[evs[k].i].ready
  {
    RunInv(tr, evs, n, recordFirst, k);
    var s := tr[k];
    hide Unhandled, LogOk;
    if evs[k] == FeedRoundRobin {
      assert InstanceOk(s.q[s.currentAfterWait], WrittenFor(s, s.currentAfterWait), s.next);
    } else if evs[k] == FeedTaken || evs[k] == Start {
      assert InstanceOk(s.q[s.pc.i], WrittenFor(s, s.pc.i), s.next);
    } else if evs[k].Announce? || evs[k].Finish? {
      assert InstanceOk(s.q[evs[k].i], WrittenFor(s, evs[k].i), s.next);
    }
  }

  /** In every run, each analysis takes a test that was never analysed before, at a moment when the map
      of its instance is the complete trace of that very test. Its novelty is judged on that map, except
      exactly when the barrier drains the record of an instance other than the one served last. */
  lemma AnalysisIsExact(tr: seq<State>, evs: seq<Event>, n: nat, recordFirst: bool, k: nat)
    requires IsRun(tr, evs, n, recordFirst) && k < |evs|
    ensures tr[k + 1].log == tr[k].log || |tr[k + 1].log| == |tr[k].log| + 1
    ensures tr[k].log <= tr[k + 1].log
    ensures |tr[k + 1].log| > |tr[k].log| ==>
              var a := tr[k + 1].log[|tr[k].log|];
              && a.instance < |tr[k].q| && tr[k].q[a.instance].buffer == Some(a.test)
              && tr[k].q[a.instance].trace == Complete(a.test) && !InLog(tr[k], a.test)
              && (evs[k] == DrainOne ==> tr[k].fifo != [] && a.instance == tr[k].fifo[0] && a.examined == tr[k].cur)
              && (a.examined == a.instance <==> evs[k] != DrainOne || tr[k].fifo[0] == tr[k].cur)
  {
    RunInv(tr, evs, n, recordFirst, k);
    var s := tr[k];
    hide Unhandled;
    if evs[k] == FeedTaken {
      assert InstanceOk(s.q[s.pc.i], WrittenFor(s, s.pc.i), s.next);
    } else if evs[k] == FeedRoundRobin {
      assert InstanceOk(s.q[s.currentAfterWait], WrittenFor(s, s.currentAfterWait), s.next);
    } else if evs[k] == DrainOne {
      assert InstanceOk(s.q[s.fifo[0]], WrittenFor(s, s.fifo[0]), s.next);
    }
  }

  /** Conservation in every state of every run: executions counted plus tests not yet analysed are the
      tests dispatched, and every test written so far was analysed once or is in exactly one buffer. */
  lemma NothingLost(tr: seq<State>, evs: seq<Event>, n: nat, recordFirst: bool, k: nat, t: nat)
    requires IsRun(tr, evs, n, recordFirst) && k <= |evs| && t < tr[k].next
    ensures tr[k].totalExecs + Unhandled(tr[k].q) == tr[k].dispatched
    ensures InLog(tr[k], t) != InBuffer(tr[k], t)
    ensures forall a, b :: 0 <= a < b < |tr[k].log| ==> tr[k].log[a].test != tr[k].log[b].test
    ensures forall i, j :: 0 <= i < j < |tr[k].q| && tr[k].q[i].buffer.Some? ==> tr[k].q[i].buffer != tr[k].q[j].buffer
  {
    RunInv(tr, evs, n, recordFirst, k);
  }

  /** With the order the instances use, nothing is left unanalysed when the barrier is passed, and every
      test dispatched so far has been counted. */
  lemma BarrierAnalysesAll(tr: seq<State>, evs: seq<Event>, n: nat, k: nat)
    requires IsRun(tr, evs, n, true) && k < |evs| && evs[k] == DrainDone
    ensures var s := tr[k + 1];
            (forall j :: 0 <= j < |s.q| ==> s.q[j].handled && s.q[j].ready) && s.totalExecs == s.dispatched
  {
    RunInv(tr, evs, n, true, k);
    RunInv(tr, evs, n, true, k + 1);
    StepDrainDone(tr[k], true);
    AllHandled(tr[k + 1].q);
  }

  // ---------------------------------------------------------------------------------------------
  // Every instance is served

  /** A barrier has been passed. */
  predicate BarrierBefore(evs: seq<Event>, k: nat)
    requires k <= |evs|
  {
    k > 0 && (evs[k - 1] == DrainDone || BarrierBefore(evs, k - 1))
  }

  /** Round robin steps since the last barrier. */
  function ServedSince(evs: seq<Event>, k: nat): nat
    requires k <= |evs|
  {
    if k == 0 || evs[k - 1] == DrainDone then 0
    else ServedSince(evs, k - 1) + (if evs[k - 1] == FeedRoundRobin then 1 else 0)
  }

  lemma RoundRobinStep(s: State, ev: Event, recordFirst: bool)
    requires Enabled(s, ev, recordFirst) && Defined(s, ev)
    ensures var s' := Next(s, ev, recordFirst);
            && |s'.q| == |s.q|
            && (ev == DrainDone ==> s'.isAfterWait && s'.currentAfterWait == 0)
            && (ev == FeedRoundRobin ==>
                  && s.isAfterWait && s.currentAfterWait < |s.q|
                  && s'.isAfterWait == (s.currentAfterWait + 1 < |s.q|)
                  && (s'.isAfterWait ==> s'.currentAfterWait == s.currentAfterWait + 1))
            && (ev != DrainDone && ev != FeedRoundRobin ==>
                s'.isAfterWait == s.isAfterWait && s'.currentAfterWait == s.currentAfterWait)
  {
  }

  lemma {:induction false} RoundRobinState(tr: seq<State>, evs: seq<Event>, n: nat, recordFirst: bool, k: nat)
    requires IsRun(tr, evs, n, recordFirst) && k <= |evs|
    ensures |tr[k].q| == n
    ensures tr[k].isAfterWait <==> BarrierBefore(evs, k) && ServedSince(evs, k) < n
    ensures tr[k].isAfterWait ==> tr[k].currentAfterWait == ServedSince(evs, k)
    ensures if BarrierBefore(evs, k) then ServedSince(evs, k) <= n else ServedSince(evs, k) == 0
  {
    if k > 0 {
      hide Next, Enabled, Defined;
      RoundRobinState(tr, evs, n, recordFirst, k - 1);
      assert tr[k - 1 + 1] == Next(tr[k - 1], evs[k - 1], recordFirst);
      RoundRobinStep(tr[k - 1], evs[k - 1], recordFirst);
    }
  }

  /** After a barrier the instances get their next tests in the order 0, 1, 2 and so on, once each, and no
      record is taken before the last of them has its test. */
  lemma RoundRobinServesAll(tr: seq<State>, evs: seq<Event>, n: nat, recordFirst: bool, k: nat)
    requires IsRun(tr, evs, n, recordFirst) && k < |evs|
    ensures evs[k] == FeedRoundRobin ==>
              var i := ServedSince(evs, k);
              && BarrierBefore(evs, k) && i < n && |tr[k + 1].q| == n
              && tr[k + 1].pc == Written(i) && tr[k + 1].q[i].file == Some(tr[k].next)
    ensures evs[k] == TakeRecord && BarrierBefore(evs, k) ==> ServedSince(evs, k) == n
    ensures evs[k] == FeedTaken ==>
              var i := tr[k].pc.i;
              i < |tr[k + 1].q| && tr[k + 1].pc == Written(i) && tr[k + 1].q[i].file == Some(tr[k].next)
  {
    RoundRobinState(tr, evs, n, recordFirst, k);
    assert tr[k + 1] == Next(tr[k], evs[k], recordFirst);
  }

  /** The instance that announces itself in this step. */
  function Announced(ev: Event, recordFirst: bool): Option<nat> {
    match ev
    case Boot(i) => Some(i)
    case Finish(i) => if recordFirst then Some(i) else None
    case Announce(i) => if recordFirst then None else Some(i)
    case _ => None
  }

  function AllAnnounced(evs: seq<Event>, recordFirst: bool): seq<nat> {
    if evs == [] then []
    else
      var rest := AllAnnounced(evs[..|evs| - 1], recordFirst);
      match Announced(evs[|evs| - 1], recordFirst)
      case None => rest
      case Some(i) => rest + [i]
  }

  function RecordsRead(evs: seq<Event>): nat {
    if evs == [] then 0
    else RecordsRead(evs[..|evs| - 1]) + (if evs[|evs| - 1] == TakeRecord || evs[|evs| - 1] == DrainOne then 1 else 0)
  }

  lemma FifoStep(s: State, ev: Event, recordFirst: bool)
    requires Enabled(s, ev, recordFirst) && Defined(s, ev)
    ensures var s' := Next(s, ev, recordFirst);
            && (ev == TakeRecord || ev == DrainOne ==> s.fifo != [] && s'.fifo == s.fifo[1..])
            && (ev == TakeRecord ==> s'.pc == Taken(s.fifo[0]))
            && (ev != TakeRecord && ev != DrainOne ==>
                s'.fifo == match Announced(ev, recordFirst) case None => s.fifo case Some(i) => s.fifo + [i])
  {
  }

  /** Records are read in the order in which instances announced themselves, each once. */
  lemma {:induction false} RecordsInOrder(tr: seq<State>, evs: seq<Event>, n: nat, recordFirst: bool, k: nat)
    requires IsRun(tr, evs, n, recordFirst) && k <= |evs|
    ensures var all, read := AllAnnounced(evs[..k], recordFirst), RecordsRead(evs[..k]);
            && read <= |all| && tr[k].fifo == all[read..]
            && (k < |evs| && evs[k] == TakeRecord ==> read < |all| && tr[k + 1].pc == Taken(all[read]))
  {
    hide Next, Enabled, Defined;
    if k > 0 {
      RecordsInOrder(tr, evs, n, recordFirst, k - 1);
      assert evs[..k][..k - 1] == evs[..k - 1];
      assert tr[k - 1 + 1] == Next(tr[k - 1], evs[k - 1], recordFirst);
      FifoStep(tr[k - 1], evs[k - 1], recordFirst);
    }
    if k < |evs| {
      assert tr[k + 1] == Next(tr[k], evs[k], recordFirst);
      FifoStep(tr[k], evs[k], recordFirst);
    }
  }

  /** The fuzzer will come back to instance `i`: its record is in the FIFO or was just read, a test was just
      written for it, the barrier is about to make every instance due, or it is still due after one. */
  ghost predicate Expected(s: State, i: nat) {
    || i in s.fifo || s.pc == Taken(i) || s.pc == Written(i) || s.pc == Draining
    || (s.isAfterWait && s.currentAfterWait <= i)
  }

  ghost predicate NoneForgotten(s: State) {
    forall i :: 0 <= i < |s.q| && s.q[i].ready && s.q[i].phase == Waiting ==> Expected(s, i)
  }

  lemma FuzzerForgetsNone(s: State, ev: Event)
    requires Inv(s, true) && NoneForgotten(s) && Enabled(s, ev, true) && Defined(s, ev)
    requires !(ev.Boot? || ev.Receive? || ev.Finish? || ev.Announce?)
    ensures NoneForgotten(Next(s, ev, true))
  {
    hide InstanceOk, LogOk, Conserved, Accounted, RecordKept;
    var s' := Next(s, ev, true);
    forall i | 0 <= i < |s'.q| && s'.q[i].ready && s'.q[i].phase == Waiting
      ensures Expected(s', i)
    {
      assert s.q[i].ready && s.q[i].phase == Waiting;
      assert Expected(s, i);
      assert i in s.fifo ==> i in s'.fifo || (s.fifo != [] && i == s.fifo[0]);
    }
  }

  lemma InstanceIsExpected(s: State, ev: Event)
    requires Inv(s, true) && NoneForgotten(s) && Enabled(s, ev, true)
    requires ev.Boot? || ev.Receive? || ev.Finish? || ev.Announce?
    ensures NoneForgotten(Next(s, ev, true))
  {
    hide LogOk, Conserved, Accounted, PcOk;
    var s' := Next(s, ev, true);
    assert InstanceOk(s.q[ev.i], WrittenFor(s, ev.i), s.next);
    hide InstanceOk;
    forall i | 0 <= i < |s'.q| && s'.q[i].ready && s'.q[i].phase == Waiting
      ensures Expected(s', i)
    {
      assert i in s.fifo ==> i in s'.fifo;
      if i != ev.i { assert Expected(s, i); }
    }
  }

  /** What an instance is about: it boots, is expected, or has a test. */
  ghost predicate Attended(s: State, i: nat)
    requires i < |s.q|
  {
    var v := s.q[i];
    v.phase == Booting || Expected(s, i) || v.pipe || v.phase.Running? || v.phase.Posted?
  }

  lemma NoneIdle(s: State, i: nat)
    requires Inv(s, true) && NoneForgotten(s) && i < |s.q|
    ensures Attended(s, i)
  {
    hide LogOk, Conserved, Accounted, PcOk, RecordKept, Expected;
    assert InstanceOk(s.q[i], WrittenFor(s, i), s.next);
  }

  lemma {:induction false} RunForgetsNone(tr: seq<State>, evs: seq<Event>, n: nat, k: nat)
    requires IsRun(tr, evs, n, true) && k <= |evs|
    ensures NoneForgotten(tr[k])
  {
    if k > 0 {
      hide Inv, Next, Enabled, Defined, NoneForgotten;
      RunForgetsNone(tr, evs, n, k - 1);
      RunInv(tr, evs, n, true, k - 1);
      assert tr[k - 1 + 1] == Next(tr[k - 1], evs[k - 1], true);
      var ev := evs[k - 1];
      if ev.Boot? || ev.Receive? || ev.Finish? || ev.Announce? {
        InstanceIsExpected(tr[k - 1], ev);
      } else {
        FuzzerForgetsNone(tr[k - 1], ev);
      }
    }
  }

  /** With the order the instances use, none of them is left idle. */
  lemma NoInstanceForgotten(tr: seq<State>, evs: seq<Event>, n: nat, k: nat, i: nat)
    requires IsRun(tr, evs, n, true) && k <= |evs| && i < |tr[k].q|
    ensures Attended(tr[k], i)
  {
    hide Inv, Next, Enabled, Defined, NoneForgotten;
    RunInv(tr, evs, n, true, k);
    RunForgetsNone(tr, evs, n, k);
    NoneIdle(tr[k], i);
  }

  ghost predicate Reachable(s: State, n: nat, recordFirst: bool) {
    exists tr, evs :: IsRun(tr, evs, n, recordFirst) && tr[|tr| - 1] == s
  }

  lemma InitReachable(s: State, n: nat, recordFirst: bool)
    requires Init(s, n)
    ensures Reachable(s, n, recordFirst)
  {
    assert IsRun([s], [], n, recordFirst);
  }

  lemma NextReachable(s: State, ev: Event, n: nat, recordFirst: bool)
    requires Reachable(s, n, recordFirst) && Enabled(s, ev, recordFirst) && Defined(s, ev)
    ensures Reachable(Next(s, ev, recordFirst), n, recordFirst)
  {
    var tr, evs :| IsRun(tr, evs, n, recordFirst) && tr[|tr| - 1] == s;
    var tr', evs' := tr + [Next(s, ev, recordFirst)], evs + [ev];
    forall k | 0 <= k < |evs'|
      ensures Enabled(tr'[k], evs'[k], recordFirst) && Defined(tr'[k], evs'[k]) && tr'[k + 1] == Next(tr'[k], evs'[k], recordFirst)
    {
      assert k < |evs| ==> tr'[k] == tr[k] && evs'[k] == evs[k] && tr'[k + 1] == tr[k + 1];
    }
    assert IsRun(tr', evs', n, recordFirst);
  }

  /** A state with the given instances and FIFO, before any analysis. */
  function Shot(q: seq<Instance>, fifo: seq<nat>, pc: Pc, cur: nat, next: nat, dispatched: nat): State {
    State(q, fifo, pc, cur, false, 0, next, dispatched, 0, [])
  }

  const Born := Instance(false, true, None, true, None, false, Unused, Booting)
  const Up := Born.(phase := Waiting)

  /** An instance that was given test `t`, in the phases it goes through. */
  function Given(t: nat): Instance { Up.(buffer := Some(t), file := Some(t)) }
  function Asked(t: nat): Instance { Instance(true, false, Some(t), false, Some(t), true, Cleared, Waiting) }
  function Busy(t: nat): Instance { Asked(t).(pipe := false, phase := Running(t)) }

  lemma Advance(s: State, ev: Event, s': State, n: nat, recordFirst: bool)
    requires Reachable(s, n, recordFirst) && Enabled(s, ev, recordFirst) && Defined(s, ev) && s' == Next(s, ev, recordFirst)
    ensures Reachable(s', n, recordFirst)
  {
    NextReachable(s, ev, n, recordFirst);
  }

  /** One instance that is running its first test. */
  lemma OneRunning(recordFirst: bool)
    ensures Reachable(Shot([Busy(0)], [], Idle, 0, 1, 1), 1, recordFirst)
  {
    hide Reachable;
    InitReachable(Shot([Born], [], Idle, 0, 0, 0), 1, recordFirst);
    Advance(Shot([Born], [], Idle, 0, 0, 0), Boot(0), Shot([Up], [0], Idle, 0, 0, 0), 1, recordFirst);
    Advance(Shot([Up], [0], Idle, 0, 0, 0), TakeRecord, Shot([Up], [], Taken(0), 0, 0, 0), 1, recordFirst);
    Advance(Shot([Up], [], Taken(0), 0, 0, 0), FeedTaken, Shot([Given(0)], [], Written(0), 0, 1, 0), 1, recordFirst);
    Advance(Shot([Given(0)], [], Written(0), 0, 1, 0), Start, Shot([Asked(0)], [], Idle, 0, 1, 1), 1, recordFirst);
    Advance(Shot([Asked(0)], [], Idle, 0, 1, 1), Receive(0), Shot([Busy(0)], [], Idle, 0, 1, 1), 1, recordFirst);
  }

  /** With the ready byte first, one instance and one test already get past the barrier unanalysed. */
  lemma ReadyFirstLeavesTests() returns (s: State)
    ensures Reachable(s, 1, false) && s.isAfterWait && |s.q| == 1 && !s.q[0].handled
  {
    hide Reachable;
    OneRunning(false);
    var late := Busy(0).(phase := Late, trace := Complete(0), ready := true);
    Advance(Shot([Busy(0)], [], Idle, 0, 1, 1), Finish(0), Shot([late], [], Idle, 0, 1, 1), 1, false);
    Advance(Shot([late], [], Idle, 0, 1, 1), BeginWait, Shot([late], [], Scanning(0), 0, 1, 1), 1, false);
    Advance(Shot([late], [], Scanning(0), 0, 1, 1), ScanReady, Shot([late], [], Draining, 0, 1, 1), 1, false);
    s := Shot([late], [], Draining, 0, 1, 1).(pc := Idle, isAfterWait := true);
    Advance(Shot([late], [], Draining, 0, 1, 1), DrainDone, s, 1, false);
  }

  lemma FirstOfTwoRunning()
    ensures Reachable(Shot([Busy(0), Born], [], Idle, 0, 1, 1), 2, true)
  {
    hide Reachable;
    InitReachable(Shot([Born, Born], [], Idle, 0, 0, 0), 2, true);
    Advance(Shot([Born, Born], [], Idle, 0, 0, 0), Boot(0), Shot([Up, Born], [0], Idle, 0, 0, 0), 2, true);
    Advance(Shot([Up, Born], [0], Idle, 0, 0, 0), TakeRecord, Shot([Up, Born], [], Taken(0), 0, 0, 0), 2, true);
    Advance(Shot([Up, Born], [], Taken(0), 0, 0, 0), FeedTaken, Shot([Given(0), Born], [], Written(0), 0, 1, 0), 2, true);
    Advance(Shot([Given(0), Born], [], Written(0), 0, 1, 0), Start, Shot([Asked(0), Born], [], Idle, 0, 1, 1), 2, true);
    Advance(Shot([Asked(0), Born], [], Idle, 0, 1, 1), Receive(0), Shot([Busy(0), Born], [], Idle, 0, 1, 1), 2, true);
  }

  lemma TwoRunning()
    ensures Reachable(Shot([Busy(0), Busy(1)], [], Idle, 1, 2, 2), 2, true)
  {
    hide Reachable;
    FirstOfTwoRunning();
    Advance(Shot([Busy(0), Born], [], Idle, 0, 1, 1), Boot(1), Shot([Busy(0), Up], [1], Idle, 0, 1, 1), 2, true);
    Advance(Shot([Busy(0), Up], [1], Idle, 0, 1, 1), TakeRecord, Shot([Busy(0), Up], [], Taken(1), 1, 1, 1), 2, true);
    Advance(Shot([Busy(0), Up], [], Taken(1), 1, 1, 1), FeedTaken, Shot([Busy(0), Given(1)], [], Written(1), 1, 2, 1), 2, true);
    Advance(Shot([Busy(0), Given(1)], [], Written(1), 1, 2, 1), Start, Shot([Busy(0), Asked(1)], [], Idle, 1, 2, 2), 2, true);
    Advance(Shot([Busy(0), Asked(1)], [], Idle, 1, 2, 2), Receive(1), Shot([Busy(0), Busy(1)], [], Idle, 1, 2, 2), 2, true);
  }

  /** While the barrier drains the FIFO, novelty is judged on the map of whichever instance was served
      last: with two instances, the result of the first is examined on the map of the second. */
  lemma DrainExaminesOtherMap() returns (s: State)
    ensures Reachable(s, 2, true) && s.log == [Analysis(0, 0, 1)]
  {
    hide Reachable;
    TwoRunning();
    var p0 := Busy(0).(phase := Posted(0), trace := Complete(0));
    var p1 := Busy(1).(phase := Posted(1), trace := Complete(1));
    var d0, d1 := p0.(phase := Waiting, ready := true), p1.(phase := Waiting, ready := true);
    Advance(Shot([Busy(0), Busy(1)], [], Idle, 1, 2, 2), Finish(0), Shot([p0, Busy(1)], [0], Idle, 1, 2, 2), 2, true);
    Advance(Shot([p0, Busy(1)], [0], Idle, 1, 2, 2), Announce(0), Shot([d0, Busy(1)], [0], Idle, 1, 2, 2), 2, true);
    Advance(Shot([d0, Busy(1)], [0], Idle, 1, 2, 2), Finish(1), Shot([d0, p1], [0, 1], Idle, 1, 2, 2), 2, true);
    Advance(Shot([d0, p1], [0, 1], Idle, 1, 2, 2), Announce(1), Shot([d0, d1], [0, 1], Idle, 1, 2, 2), 2, true);
    Advance(Shot([d0, d1], [0, 1], Idle, 1, 2, 2), BeginWait, Shot([d0, d1], [0, 1], Scanning(0), 1, 2, 2), 2, true);
    Advance(Shot([d0, d1], [0, 1], Scanning(0), 1, 2, 2), ScanReady, Shot([d0, d1], [0, 1], Scanning(1), 1, 2, 2), 2, true);
    Advance(Shot([d0, d1], [0, 1], Scanning(1), 1, 2, 2), ScanReady, Shot([d0, d1], [0, 1], Draining, 1, 2, 2), 2, true);
    s := Next(Shot([d0, d1], [0, 1], Draining, 1, 2, 2), DrainOne, true);
    Advance(Shot([d0, d1], [0, 1], Draining, 1, 2, 2), DrainOne, s, 2, true);
  }
}
