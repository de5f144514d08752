/** Corpus culling in afl-fuzz: the per-byte winners `top_rated` with their reference-counted compact
    traces, the greedy choice of favored entries, and the counters kept beside them.

    A queue entry is named by its position in the queue; `top_rated[i]` is such a position or absent. */
module Culling {
  import opened Wire

  const MAP_SIZE: nat := 65536
  const MINI_SIZE: nat := 8192

  // ---------------------------------------------------------------------------------------------
  // Packed bit maps

  function Mask(k: nat): bv8 {
    if k == 0 then 1 else if k == 1 then 2 else if k == 2 then 4 else if k == 3 then 8
    else if k == 4 then 16 else if k == 5 then 32 else if k == 6 then 64 else 128
  }

  function TestBit(b: bv8, k: nat): bool { b & Mask(k) != 0 }
  function SetBit(b: bv8, k: nat): bv8 { b | Mask(k) }
  function AndNot(b: bv8, c: bv8): bv8 { b & !c }

  lemma SetBitTests(b: bv8, k: nat, j: nat)
    requires k < 8 && j < 8
    ensures TestBit(SetBit(b, k), j) == (j == k || TestBit(b, j))
  {
  }

  lemma AndNotTests(b: bv8, c: bv8, j: nat)
    requires j < 8
    ensures TestBit(AndNot(b, c), j) == (TestBit(b, j) && !TestBit(c, j))
  {
  }

  lemma ConstantBytes(j: nat)
    requires j < 8
    ensures TestBit(0xff, j) && !TestBit(0, j)
  {
  }

  type Mini = m: seq<bv8> | |m| == MINI_SIZE witness seq(MINI_SIZE, _ => 0)
  type Trace = t: seq<bv8> | |t| == MAP_SIZE witness seq(MAP_SIZE, _ => 0)

  /** Byte `i` of the coverage map is marked in the packed map `m`. */
  predicate Hit(m: Mini, i: nat)
    requires i < MAP_SIZE
  {
    TestBit(m[i / 8], i % 8)
  }

  /** `minimize_bits` into a zeroed buffer: drop the hit counts. */
  method MinimizeBits(src: Trace) returns (dst: Mini)
    ensures forall i :: 0 <= i < MAP_SIZE ==> Hit(dst, i) == (src[i] != 0)
  {
    hide TestBit, SetBit;
    dst := seq(MINI_SIZE, _ => 0);
    var i := 0;
    forall j | 0 <= j < MAP_SIZE
      ensures !Hit(dst, j)
    {
      ConstantBytes(j % 8);
    }
    while i < MAP_SIZE
      invariant 0 <= i <= MAP_SIZE
      invariant forall j :: 0 <= j < MAP_SIZE ==> Hit(dst, j) == (j < i && src[j] != 0)
    {
      if src[i] != 0 {
        dst := MarkByte(dst, i);
      }
      i := i + 1;
    }
  }

  method MarkByte(m: Mini, i: nat) returns (m': Mini)
    requires i < MAP_SIZE
    ensures forall j :: 0 <= j < MAP_SIZE ==> Hit(m', j) == (j == i || Hit(m, j))
  {
    hide TestBit, SetBit;
    m' := m[i / 8 := SetBit(m[i / 8], i % 8)];
    forall j | 0 <= j < MAP_SIZE
      ensures Hit(m', j) == (j == i || Hit(m, j))
    {
      SetBitTests(m[i / 8], i % 8, j % 8);
    }
  }

  /** The inner loop of `cull_queue`: remove from `v` all bytes marked in `m`. */
  method RemoveBits(v: Mini, m: Mini) returns (v': Mini)
    ensures forall i :: 0 <= i < MAP_SIZE ==> Hit(v', i) == (Hit(v, i) && !Hit(m, i))
  {
    hide TestBit, AndNot;
    v' := v;
    var j := MINI_SIZE;
    while j > 0
      invariant 0 <= j <= MINI_SIZE
      invariant forall x :: 0 <= x < j ==> v'[x] == v[x]
      invariant forall x, k :: j <= x < MINI_SIZE && 0 <= k < 8 ==> TestBit(v'[x], k) == (TestBit(v[x], k) && !TestBit(m[x], k))
    {
      j := j - 1;
      forall k | 0 <= k < 8
        ensures TestBit(AndNot(v[j], m[j]), k) == (TestBit(v[j], k) && !TestBit(m[j], k))
        ensures m[j] == 0 ==> !TestBit(m[j], k)
      {
        AndNotTests(v[j], m[j], k);
        ConstantBytes(k);
      }
      if m[j] != 0 {
        v' := v'[j := AndNot(v'[j], m[j])];
      }
    }
  }

  // ---------------------------------------------------------------------------------------------
  // The state and its invariants

  datatype Entry = Entry(execUs: nat, len: nat, wasFuzzed: bool, favored: bool, tcRef: nat, mini: Option<Mini>) {
    function Factor(): nat { execUs * len }
  }

  type Slots = seq<Option<nat>>

  /** How many slots of `top_rated` entry `e` holds. */
  function Held(top: Slots, e: nat): nat {
    if top == [] then 0 else Held(top[..|top| - 1], e) + (if top[|top| - 1] == Some(e) then 1 else 0)
  }

  function CountIf(queue: seq<Entry>, p: Entry -> bool): nat {
    if queue == [] then 0 else CountIf(queue[..|queue| - 1], p) + (if p(queue[|queue| - 1]) then 1 else 0)
  }

  const Favored: Entry -> bool := (e: Entry) => e.favored
  const PendingFavored: Entry -> bool := (e: Entry) => e.favored && !e.wasFuzzed
  const NotFuzzed: Entry -> bool := (e: Entry) => !e.wasFuzzed

  /** Reference counts are exact, and a compact trace is kept exactly while it is referenced. */
  ghost predicate RefsExact(queue: seq<Entry>, top: Slots) {
    && |top| == MAP_SIZE
    && (forall i :: 0 <= i < MAP_SIZE && top[i].Some? ==> top[i].value < |queue|)
    && (forall e :: 0 <= e < |queue| ==> queue[e].tcRef == Held(top, e) && (queue[e].mini.Some? <==> queue[e].tcRef > 0))
  }

  /** A winner's compact trace contains the byte it won. */
  ghost predicate Owns(queue: seq<Entry>, top: Slots, i: nat) {
    && i < |top|
    && (top[i].Some? ==>
          && top[i].value < |queue|
          && queue[top[i].value].mini.Some?
          && i < MAP_SIZE
          && Hit(queue[top[i].value].mini.value, i))
  }

  ghost predicate OwnsAll(queue: seq<Entry>, top: Slots) {
    forall i :: 0 <= i < MAP_SIZE ==> Owns(queue, top, i)
  }

  /** Some favored entry hits byte `i`. */
  ghost predicate CoveredByte(queue: seq<Entry>, i: nat)
    requires i < MAP_SIZE
  {
    exists e :: 0 <= e < |queue| && queue[e].favored && queue[e].mini.Some? && Hit(queue[e].mini.value, i)
  }

  /** Every byte that has a winner is hit by a favored entry. */
  ghost predicate Cover(queue: seq<Entry>, top: Slots) {
    forall i :: 0 <= i < MAP_SIZE && i < |top| && top[i].Some? ==> CoveredByte(queue, i)
  }

  lemma {:induction false} HeldUpdate(top: Slots, i: nat, v: Option<nat>, e: nat)
    requires i < |top|
    ensures Held(top[i := v], e) + (if top[i] == Some(e) then 1 else 0) == Held(top, e) + (if v == Some(e) then 1 else 0)
  {
    var n := |top| - 1;
    if i == n {
      assert top[i := v][..n] == top[..n];
    } else {
      assert top[i := v][..n] == top[..n][i := v];
      HeldUpdate(top[..n], i, v, e);
    }
  }

  lemma {:induction false} HeldPositive(top: Slots, i: nat, e: nat)
    requires i < |top| && top[i] == Some(e)
    ensures Held(top, e) > 0
  {
    if i < |top| - 1 {
      HeldPositive(top[..|top| - 1], i, e);
    }
  }

  lemma {:induction false} HeldWitness(top: Slots, e: nat) returns (i: nat)
    requires Held(top, e) > 0
    ensures i < |top| && top[i] == Some(e)
  {
    i := |top| - 1;
    if top[i] != Some(e) {
      i := HeldWitness(top[..i], e);
    }
  }

  lemma {:induction false} HeldByOne(top: Slots, e: nat, i: nat, j: nat)
    requires i < j < |top| && top[i] == top[j] == Some(e)
    ensures Held(top, e) >= 2
  {
    if j == |top| - 1 {
      HeldPositive(top[..j], i, e);
    } else {
      HeldByOne(top[..|top| - 1], e, i, j);
    }
  }

  lemma {:induction false} CountUpdate(queue: seq<Entry>, e: nat, v: Entry, p: Entry -> bool)
    requires e < |queue|
    ensures CountIf(queue[e := v], p) + (if p(queue[e]) then 1 else 0) == CountIf(queue, p) + (if p(v) then 1 else 0)
  {
    var n := |queue| - 1;
    if e == n {
      assert queue[e := v][..n] == queue[..n];
    } else {
      assert queue[e := v][..n] == queue[..n][e := v];
      CountUpdate(queue[..n], e, v, p);
    }
  }

  lemma {:induction false} CountNone(queue: seq<Entry>, p: Entry -> bool)
    requires forall e :: 0 <= e < |queue| ==> !p(queue[e])
    ensures CountIf(queue, p) == 0
  {
    if queue != [] {
      CountNone(queue[..|queue| - 1], p);
    }
  }

  lemma {:induction false} CountSame(queue: seq<Entry>, other: seq<Entry>, p: Entry -> bool)
    requires |queue| == |other| && forall e :: 0 <= e < |queue| ==> p(queue[e]) == p(other[e])
    ensures CountIf(queue, p) == CountIf(other, p)
  {
    if queue != [] {
      CountSame(queue[..|queue| - 1], other[..|other| - 1], p);
    }
  }

  // ---------------------------------------------------------------------------------------------
  // Scoring

  /** Everything about an entry except its trace bookkeeping. */
  ghost predicate SameBody(e: Entry, f: Entry) {
    e.execUs == f.execUs && e.len == f.len && e.wasFuzzed == f.wasFuzzed && e.favored == f.favored
  }

  ghost predicate SameBodies(queue: seq<Entry>, other: seq<Entry>) {
    |queue| == |other| && forall e :: 0 <= e < |queue| ==> SameBody(queue[e], other[e])
  }

  ghost predicate IsMiniOf(m: Mini, trace: Trace) {
    forall i :: 0 <= i < MAP_SIZE ==> Hit(m, i) == (trace[i] != 0)
  }

  /** Entry `q`, run with `trace`, takes slot `i`: the byte is hit and no previous winner is better. */
  ghost predicate Wins(queue: seq<Entry>, top: Slots, q: nat, trace: Trace, i: nat)
    requires q < |queue| && |top| == MAP_SIZE && i < MAP_SIZE
    requires top[i].Some? ==> top[i].value < |queue|
  {
    trace[i] != 0 && (top[i].Some? ==> queue[q].Factor() <= queue[top[i].value].Factor())
  }

  /** The contest, written out: execution time times length decides, and a tie goes to the newcomer. */
  lemma WinsByProduct(queue: seq<Entry>, top: Slots, q: nat, trace: Trace, i: nat)
    requires q < |queue| && |top| == MAP_SIZE && i < MAP_SIZE && (top[i].Some? ==> top[i].value < |queue|)
    ensures Wins(queue, top, q, trace, i) <==>
      trace[i] != 0 && (top[i].None? ||
        queue[q].execUs * queue[q].len <= queue[top[i].value].execUs * queue[top[i].value].len)
  {
  }

  ghost predicate Indexed(queue: seq<Entry>, top: Slots, q: nat) {
    && q < |queue| && |top| == MAP_SIZE
    && forall i :: 0 <= i < MAP_SIZE && top[i].Some? ==> top[i].value < |queue|
  }

  /** Slot `s` is the first one won, and winning it makes `q` record the new trace: it had none, or it
      momentarily lost its only slot. */
  ghost predicate RecordsAt(queue: seq<Entry>, top: Slots, q: nat, trace: Trace, s: nat)
    requires Indexed(queue, top, q) && s < MAP_SIZE
  {
    && Wins(queue, top, q, trace, s)
    && (forall i :: 0 <= i < s ==> !Wins(queue, top, q, trace, i))
    && (queue[q].mini.None? || (queue[q].tcRef == 1 && top[s] == Some(q)))
  }

  /** A test the caller can make before rescoring `q` with `trace`: either the new trace will be
      recorded, or the recorded one already contains every byte about to be won. */
  ghost predicate TraceFits(queue: seq<Entry>, top: Slots, q: nat, trace: Trace)
    requires Indexed(queue, top, q)
  {
    || (exists s :: 0 <= s < MAP_SIZE && RecordsAt(queue, top, q, trace, s))
    || (forall i :: 0 <= i < MAP_SIZE && Wins(queue, top, q, trace, i) ==>
          queue[q].mini.Some? && Hit(queue[q].mini.value, i))
  }

  lemma WonOnce(queue: seq<Entry>, top: Slots, q: nat, i: nat)
    requires RefsExact(queue, top) && q < |queue| && i < MAP_SIZE && top[i] == Some(q)
    ensures queue[q].tcRef >= 1 && queue[q].mini.Some?
    ensures queue[q].tcRef == 1 ==> forall j :: 0 <= j < MAP_SIZE && top[j] == Some(q) ==> j == i
  {
    HeldPositive(top, i, q);
    forall j | 0 <= j < MAP_SIZE && top[j] == Some(q) && j != i
      ensures queue[q].tcRef >= 2
    {
      HeldByOne(top, q, if i < j then i else j, if i < j then j else i);
    }
  }

  /** Drop the reference of a previous winner, and its compact trace with the last reference. */
  function Lose(queue: seq<Entry>, p: Option<nat>): (r: seq<Entry>)
    requires p.Some? ==> p.value < |queue| && queue[p.value].tcRef > 0
    ensures |r| == |queue|
  {
    if p.None? then queue
    else
      var w := queue[p.value];
      queue[p.value := w.(tcRef := w.tcRef - 1, mini := if w.tcRef == 1 then None else w.mini)]
  }

  function Gain(queue: seq<Entry>, q: nat, m: Option<Mini>): (r: seq<Entry>)
    requires q < |queue|
    ensures |r| == |queue|
  {
    queue[q := queue[q].(tcRef := queue[q].tcRef + 1, mini := m)]
  }

  lemma MiniOf(m: Mini, trace: Trace)
    requires forall i :: 0 <= i < MAP_SIZE ==> Hit(m, i) == (trace[i] != 0)
    ensures IsMiniOf(m, trace)
  {
  }

  lemma WinExact(queue: seq<Entry>, top: Slots, q: nat, i: nat, m: Option<Mini>)
    requires RefsExact(queue, top) && q < |queue| && i < MAP_SIZE && m.Some?
    requires top[i].Some? ==> queue[top[i].value].tcRef > 0
    ensures RefsExact(Gain(Lose(queue, top[i]), q, m), top[i := Some(q)])
  {
    hide Held;
    var queue', top' := Gain(Lose(queue, top[i]), q, m), top[i := Some(q)];
    forall e | 0 <= e < |queue|
      ensures queue'[e].tcRef == Held(top', e) && (queue'[e].mini.Some? <==> queue'[e].tcRef > 0)
    {
      HeldUpdate(top, i, Some(q), e);
    }
  }

  class Corpus {
    const dumbMode: bool
    var queue: seq<Entry>
    var topRated: Slots
    var scoreChanged: bool
    var queuedFavored: int
    var pendingFavored: int
    var pendingNotFuzzed: int

    constructor (dumbMode: bool)
      ensures this.dumbMode == dumbMode && queue == [] && Exact() && Consistent()
    {
      this.dumbMode := dumbMode;
      queue, topRated, scoreChanged := [], seq(MAP_SIZE, _ => None), false;
      queuedFavored, pendingFavored, pendingNotFuzzed := 0, 0, 0;
    }

    /** Reference counts and statistics equal what they count. */
    ghost predicate Exact()
      reads this
    {
      && RefsExact(queue, topRated)
      && queuedFavored == CountIf(queue, Favored)
      && pendingFavored == CountIf(queue, PendingFavored)
      && pendingNotFuzzed == CountIf(queue, NotFuzzed)
    }

    /** Winners own what they won, and unless a score changed since the last cull the favored entries
        form a cover. */
    ghost predicate Consistent()
      reads this
    {
      && |topRated| == MAP_SIZE
      && OwnsAll(queue, topRated)
      && (!scoreChanged ==> Cover(queue, topRated))
    }

    /** Take slot `i` for entry `q`, dropping the reference of the previous winner. */
    method WinSlot(q: nat, i: nat, trace: Trace)
      requires RefsExact(queue, topRated) && q < |queue| && i < MAP_SIZE
      modifies this`queue, this`topRated
      ensures RefsExact(queue, topRated) && topRated == old(topRated)[i := Some(q)]
      ensures SameBodies(queue, old(queue))
      ensures forall e :: 0 <= e < |queue| && e != q ==>
                queue[e].mini == if queue[e].tcRef == 0 then None else old(queue)[e].mini
      ensures queue[q].mini.Some?
      ensures if old(queue)[q].mini.None? || (old(topRated)[i] == Some(q) && old(queue)[q].tcRef == 1)
              then IsMiniOf(queue[q].mini.value, trace) else queue[q].mini == old(queue)[q].mini
    {
      hide Held, Hit, IsMiniOf;
      if topRated[i].Some? {
        WonOnce(queue, topRated, topRated[i].value, i);
      }
      queue := Lose(queue, topRated[i]);
      var m := queue[q].mini;
      if m.None? {
        var compact := MinimizeBits(trace);
        assert IsMiniOf(compact, trace) by { MiniOf(compact, trace); }
        m := Some(compact);
      }
      queue := Gain(queue, q, m);
      topRated := topRated[i := Some(q)];
      WinExact(old(queue), old(topRated), q, i, m);
    }

    /** `update_bitmap_score`. */
    method UpdateBitmapScore(q: nat, trace: Trace)
      requires Exact() && q < |queue|
      modifies this`queue, this`topRated, this`scoreChanged
      ensures Exact() && SameBodies(queue, old(queue))
      ensures Indexed(old(queue), old(topRated), q)
      ensures forall i :: 0 <= i < MAP_SIZE ==>
                topRated[i] == if Wins(old(queue), old(topRated), q, trace, i) then Some(q) else old(topRated)[i]
      ensures scoreChanged == (old(scoreChanged)
                               || exists i :: 0 <= i < MAP_SIZE && Wins(old(queue), old(topRated), q, trace, i))
      ensures old(Consistent()) ==> (OwnsAll(queue, topRated) <==> TraceFits(old(queue), old(topRated), q, trace))
      ensures old(Consistent()) && OwnsAll(queue, topRated) ==> Consistent()
      ensures forall e :: 0 <= e < |queue| && queue[e].mini.Some? ==>
                queue[e].mini == old(queue)[e].mini || (e == q && IsMiniOf(queue[e].mini.value, trace))
      ensures (forall s :: 0 <= s < MAP_SIZE ==> !RecordsAt(old(queue), old(topRated), q, trace, s))
              ==> queue[q].mini == old(queue)[q].mini
    {
      hide Held, Hit, CountIf, IsMiniOf, OwnsAll, Cover, Scored, RecordsAt;
      ghost var q0, t0 := queue, topRated;
      ghost var first: nat := MAP_SIZE;
      var i := 0;
      StartScoring(q0, t0, q, trace);
      while i < MAP_SIZE
        invariant 0 <= i <= MAP_SIZE && Scored(q0, t0, queue, topRated, q, trace, i, first)
        invariant scoreChanged == (old(scoreChanged) || first < i)
      {
        if trace[i] != 0 {
          first := ScoreSlot(q, i, trace, q0, t0, first);
        } else {
          SkipSlot(q0, t0, queue, topRated, q, trace, i, first);
        }
        i := i + 1;
      }
      DoneScoring(q0, t0, queue, topRated, q, trace, first);
      CountsSame(queue, q0);
    }

    /** One byte of the trace. */
    method ScoreSlot(q: nat, i: nat, trace: Trace, ghost q0: seq<Entry>, ghost t0: Slots, ghost first: nat)
        returns (ghost first': nat)
      requires i < MAP_SIZE && trace[i] != 0 && Scored(q0, t0, queue, topRated, q, trace, i, first)
      requires first < i ==> scoreChanged
      modifies this`queue, this`topRated, this`scoreChanged
      ensures Scored(q0, t0, queue, topRated, q, trace, i + 1, first')
      ensures scoreChanged == (old(scoreChanged) || first' <= i) && (first < i ==> first' == first)
    {
      hide Held, Hit, IsMiniOf, Scored, FirstWin, RecordsAt, RefsExact, Wins;
      NextSlot(q0, t0, queue, topRated, q, trace, i, first);
      first' := first;
      if topRated[i].Some? && queue[q].Factor() > queue[topRated[i].value].Factor() {
        return;
      }
      ghost var queue0, top0 := queue, topRated;
      WinSlot(q, i, trace);
      scoreChanged := true;
      if first == MAP_SIZE {
        first' := i;
      }
      WinScored(q0, t0, queue0, top0, queue, topRated, q, trace, i, first);
    }

    /** `add_to_queue`. */
    method AddToQueue(len: nat)
      requires Exact()
      modifies this
      ensures Exact() && queue == old(queue) + [Entry(0, len, false, false, 0, None)]
      ensures topRated == old(topRated) && scoreChanged == old(scoreChanged)
      ensures old(Consistent()) ==> Consistent()
    {
      var q := Entry(0, len, false, false, 0, None);
      ghost var q0 := queue;
      queue := queue + [q];
      pendingNotFuzzed := pendingNotFuzzed + 1;
      assert queue[..|q0|] == q0;
      hide CountIf, Hit;
      Appended(q0, topRated, q);
    }

    /** The calibration results that precede scoring. */
    method SetTiming(q: nat, execUs: nat, len: nat)
      requires Exact() && q < |queue|
      modifies this`queue
      ensures Exact() && queue == old(queue)[q := old(queue)[q].(execUs := execUs, len := len)]
      ensures old(Consistent()) ==> Consistent()
    {
      ghost var q0 := queue;
      queue := queue[q := queue[q].(execUs := execUs, len := len)];
      CountSame(queue, q0, Favored);
      CountSame(queue, q0, PendingFavored);
      CountSame(queue, q0, NotFuzzed);
      hide CountIf, Held, Hit;
      SameTraces(q0, queue, topRated);
    }

    /** The end of `fuzz_one`: an entry that got through calibration counts as fuzzed. */
    method MarkFuzzed(q: nat, calFailed: bool, stopSoon: bool)
      requires Exact() && q < |queue|
      modifies this`queue, this`pendingNotFuzzed, this`pendingFavored
      ensures Exact()
      ensures queue == if !stopSoon && !calFailed then old(queue)[q := old(queue)[q].(wasFuzzed := true)] else old(queue)
      ensures old(Consistent()) ==> Consistent()
    {
      ghost var q0 := queue;
      if !stopSoon && !calFailed && !queue[q].wasFuzzed {
        ghost var v := queue[q].(wasFuzzed := true);
        CountUpdate(queue, q, v, Favored);
        CountUpdate(queue, q, v, PendingFavored);
        CountUpdate(queue, q, v, NotFuzzed);
        queue := queue[q := queue[q].(wasFuzzed := true)];
        pendingNotFuzzed := pendingNotFuzzed - 1;
        if queue[q].favored {
          pendingFavored := pendingFavored - 1;
        }
      } else {
        assert !stopSoon && !calFailed ==> queue[q := queue[q].(wasFuzzed := true)] == queue;
      }
      hide CountIf, Held, Hit;
      SameTraces(q0, queue, topRated);
    }

    /** `cull_queue`: picks the winners of bytes that no earlier pick hits. If winners own their bytes,
        then afterwards the favored entries cover every byte that has a winner, each of them was needed
        when it was picked, and the two counters of favored entries are exact. */
    method CullQueue() returns (ghost picks: seq<(nat, nat)>)
      requires Exact()
      modifies this`queue, this`scoreChanged, this`queuedFavored, this`pendingFavored
      ensures RefsExact(queue, topRated) && topRated == old(topRated) && SameTraceBodies(queue, old(queue))
      ensures dumbMode || !old(scoreChanged) ==> unchanged(this)
      ensures !dumbMode ==> !scoreChanged
      ensures !dumbMode && old(scoreChanged) ==> Drawn(queue, topRated, MAP_SIZE, picks) && queuedFavored == |picks|
      ensures old(Consistent()) ==> Exact() && Consistent()
      ensures old(Consistent()) && !dumbMode ==> Cover(queue, topRated)
      ensures old(Consistent()) && !dumbMode && old(scoreChanged) ==> Greedy(queue, topRated, picks)
    {
      hide CountIf, Held, Hit;
      picks := [];
      if dumbMode || !scoreChanged {
        SameIsSame(queue);
        return;
      }
      scoreChanged := false;
      ClearFavored();
      var tempV: Mini := seq(MINI_SIZE, _ => 0xff);
      AllBits(tempV);
      StartCull(queue, topRated, tempV);
      var i := 0;
      while i < MAP_SIZE
        invariant 0 <= i <= MAP_SIZE && RefsExact(queue, topRated)
        invariant OwnsAll(old(queue), topRated) ==> Exact() && OwnsAll(queue, topRated)
        invariant !scoreChanged && topRated == old(topRated) && SameTraceBodies(queue, old(queue))
        invariant Culled(queue, topRated, tempV, i, picks) && queuedFavored == |picks|
      {
        hide RefsExact, OwnsAll, Culled, SameTraceBodies;
        tempV, picks := CullSlot(i, tempV, picks, old(queue));
        i := i + 1;
      }
      if OwnsAll(queue, topRated) {
        DoneCull(queue, topRated, tempV, picks);
      }
    }

    /** Reset all flags and both counters. */
    method ClearFavored()
      requires Exact()
      modifies this`queue, this`queuedFavored, this`pendingFavored
      ensures Exact() && SameTraceBodies(queue, old(queue)) && queuedFavored == 0
      ensures OwnsAll(old(queue), topRated) ==> OwnsAll(queue, topRated)
      ensures forall e :: 0 <= e < |queue| ==> !queue[e].favored
    {
      hide Held, Hit;
      ghost var q0 := queue;
      queuedFavored, pendingFavored := 0, 0;
      var k := 0;
      while k < |queue|
        invariant 0 <= k <= |queue| == |q0| && queuedFavored == 0 && pendingFavored == 0
        invariant forall e :: 0 <= e < |queue| ==> queue[e] == if e < k then q0[e].(favored := false) else q0[e]
      {
        queue := queue[k := queue[k].(favored := false)];
        k := k + 1;
      }
      CountNone(queue, Favored);
      CountNone(queue, PendingFavored);
      CountSame(queue, q0, NotFuzzed);
      SameRefs(q0, queue, topRated);
    }

    method CullSlot(i: nat, tempV: Mini, ghost picks: seq<(nat, nat)>, ghost q0: seq<Entry>)
        returns (tempV': Mini, ghost picks': seq<(nat, nat)>)
      requires i < MAP_SIZE && RefsExact(queue, topRated) && Culled(queue, topRated, tempV, i, picks)
      requires OwnsAll(q0, topRated) ==> Exact() && OwnsAll(queue, topRated)
      requires queuedFavored == |picks| && SameTraceBodies(queue, q0)
      modifies this`queue, this`queuedFavored, this`pendingFavored
      ensures RefsExact(queue, topRated) && Culled(queue, topRated, tempV', i + 1, picks')
      ensures OwnsAll(q0, topRated) ==> Exact() && OwnsAll(queue, topRated)
      ensures queuedFavored == |picks'| && SameTraceBodies(queue, q0)
    {
      hide Held, Hit, CountIf, Drawn, Owns;
      tempV', picks' := tempV, picks;
      if topRated[i].Some? && Hit(tempV, i) {
        var e := topRated[i].value;
        WonOnce(queue, topRated, e, i);
        tempV' := RemoveBits(tempV, queue[e].mini.value);
        ghost var v := queue[e].(favored := true);
        CountUpdate(queue, e, v, Favored);
        CountUpdate(queue, e, v, PendingFavored);
        CountUpdate(queue, e, v, NotFuzzed);
        SameRefs(queue, queue[e := v], topRated);
        Picked(queue, topRated, tempV, tempV', i, e, picks);
        queue := queue[e := queue[e].(favored := true)];
        queuedFavored := queuedFavored + 1;
        if !queue[e].wasFuzzed {
          pendingFavored := pendingFavored + 1;
        }
        picks' := picks + [(i, e)];
      } else {
        NotPicked(queue, topRated, tempV, i, picks);
      }
    }
  }

  /** A better contender keeps its slot; and what the source may rely on at slot `i`. */
  lemma NextSlot(q0: seq<Entry>, t0: Slots, queue: seq<Entry>, top: Slots, q: nat, trace: Trace, i: nat, first: nat)
    requires i < MAP_SIZE && trace[i] != 0 && Scored(q0, t0, queue, top, q, trace, i, first)
    ensures RefsExact(queue, top) && |top| == MAP_SIZE && q < |queue| && (top[i].Some? ==> top[i].value < |queue|)
    ensures first < i || first == MAP_SIZE
    ensures top[i].Some? && queue[q].Factor() > queue[top[i].value].Factor() ==>
              Scored(q0, t0, queue, top, q, trace, i + 1, first)
  {
    hide Held, Hit, IsMiniOf;
    assert top[i].Some? ==> SameBody(queue[top[i].value], q0[top[i].value]);
  }

  lemma WinScored(q0: seq<Entry>, t0: Slots, queue: seq<Entry>, top: Slots, queue': seq<Entry>, top': Slots,
                  q: nat, trace: Trace, i: nat, first: nat)
    requires i < MAP_SIZE && trace[i] != 0 && Scored(q0, t0, queue, top, q, trace, i, first)
    requires top[i].Some? ==> queue[q].Factor() <= queue[top[i].value].Factor()
    requires RefsExact(queue', top') && top' == top[i := Some(q)] && SameBodies(queue', queue)
    requires forall e :: 0 <= e < |queue| && e != q ==>
               queue'[e].mini == if queue'[e].tcRef == 0 then None else queue[e].mini
    requires queue'[q].mini.Some?
    requires if queue[q].mini.None? || (top[i] == Some(q) && queue[q].tcRef == 1)
             then IsMiniOf(queue'[q].mini.value, trace) else queue'[q].mini == queue[q].mini
    ensures Scored(q0, t0, queue', top', q, trace, i + 1, if first == MAP_SIZE then i else first)
  {
    hide Hit, IsMiniOf;
    assert top[i].Some? ==> SameBody(queue[top[i].value], q0[top[i].value]);
    assert Wins(q0, t0, q, trace, i);
    if first < i && top[i] == Some(q) {
      WonOnce(queue, top, q, first);
    }
    forall e | 0 <= e < |queue| && e != q
      ensures queue'[e].tcRef <= queue[e].tcRef
    {
      HeldUpdate(top, i, Some(q), e);
    }
  }

  /** The state of scoring after the first `i` bytes; `first` is the first slot won so far. */
  ghost predicate Scored(q0: seq<Entry>, t0: Slots, queue: seq<Entry>, top: Slots, q: nat, trace: Trace, i: nat, first: nat) {
    && i <= MAP_SIZE && RefsExact(queue, top) && RefsExact(q0, t0) && SameBodies(queue, q0) && q < |q0|
    && (forall j :: 0 <= j < MAP_SIZE ==> top[j] == if j < i && Wins(q0, t0, q, trace, j) then Some(q) else t0[j])
    && (forall e :: 0 <= e < |queue| && e != q ==> queue[e].mini == if queue[e].tcRef == 0 then None else q0[e].mini)
    && FirstWin(q0, t0, q, trace, i, first)
    && (first >= i ==> top == t0 && queue == q0)
    && (first < i ==> queue[q].mini.Some?)
    && (if first < i && RecordsAt(q0, t0, q, trace, first)
        then IsMiniOf(queue[q].mini.value, trace) else queue[q].mini == q0[q].mini)
  }

  lemma StartScoring(q0: seq<Entry>, t0: Slots, q: nat, trace: Trace)
    requires RefsExact(q0, t0) && q < |q0|
    ensures Scored(q0, t0, q0, t0, q, trace, 0, MAP_SIZE)
  {
  }

  lemma SkipSlot(q0: seq<Entry>, t0: Slots, queue: seq<Entry>, top: Slots, q: nat, trace: Trace, i: nat, first: nat)
    requires i < MAP_SIZE && trace[i] == 0 && Scored(q0, t0, queue, top, q, trace, i, first)
    ensures Scored(q0, t0, queue, top, q, trace, i + 1, first) && first != i
  {
    hide Held, Hit, IsMiniOf;
  }

  lemma DoneScoring(q0: seq<Entry>, t0: Slots, queue: seq<Entry>, top: Slots, q: nat, trace: Trace, first: nat)
    requires Scored(q0, t0, queue, top, q, trace, MAP_SIZE, first)
    ensures RefsExact(queue, top) && SameBodies(queue, q0) && Indexed(q0, t0, q)
    ensures forall j :: 0 <= j < MAP_SIZE ==> top[j] == if Wins(q0, t0, q, trace, j) then Some(q) else t0[j]
    ensures first < MAP_SIZE <==> exists i :: 0 <= i < MAP_SIZE && Wins(q0, t0, q, trace, i)
    ensures first >= MAP_SIZE ==> queue == q0 && top == t0
    ensures forall e :: 0 <= e < |queue| && queue[e].mini.Some? ==>
              queue[e].mini == q0[e].mini || (e == q && IsMiniOf(queue[e].mini.value, trace))
    ensures (forall s :: 0 <= s < MAP_SIZE ==> !RecordsAt(q0, t0, q, trace, s)) ==> queue[q].mini == q0[q].mini
    ensures OwnsAll(q0, t0) ==> (OwnsAll(queue, top) <==> TraceFits(q0, t0, q, trace))
  {
    if OwnsAll(q0, t0) {
      Rescored(q0, t0, queue, top, q, trace, first);
    }
  }

  /** `first` is the first slot below `n` that `q` wins, or `MAP_SIZE`. */
  ghost predicate FirstWin(queue: seq<Entry>, top: Slots, q: nat, trace: Trace, n: nat, first: nat)
    requires Indexed(queue, top, q) && n <= MAP_SIZE
  {
    && (first == MAP_SIZE || (first < n && Wins(queue, top, q, trace, first)))
    && forall j :: 0 <= j < n && j < first ==> !Wins(queue, top, q, trace, j)
  }

  lemma CountsSame(queue: seq<Entry>, other: seq<Entry>)
    requires SameBodies(queue, other)
    ensures CountIf(queue, Favored) == CountIf(other, Favored)
    ensures CountIf(queue, PendingFavored) == CountIf(other, PendingFavored)
    ensures CountIf(queue, NotFuzzed) == CountIf(other, NotFuzzed)
  {
    CountSame(queue, other, Favored);
    CountSame(queue, other, PendingFavored);
    CountSame(queue, other, NotFuzzed);
  }

  /** Winners still own their bytes after rescoring exactly when the trace fits. */
  lemma Rescored(q0: seq<Entry>, t0: Slots, queue: seq<Entry>, top: Slots, q: nat, trace: Trace, first: nat)
    requires RefsExact(q0, t0) && RefsExact(queue, top) && q < |q0| && SameBodies(queue, q0)
    requires forall j :: 0 <= j < MAP_SIZE ==> top[j] == if Wins(q0, t0, q, trace, j) then Some(q) else t0[j]
    requires forall e :: 0 <= e < |queue| && e != q ==> queue[e].mini == if queue[e].tcRef == 0 then None else q0[e].mini
    requires FirstWin(q0, t0, q, trace, MAP_SIZE, first)
    requires first < MAP_SIZE ==> queue[q].mini.Some?
    requires if first < MAP_SIZE && RecordsAt(q0, t0, q, trace, first)
             then IsMiniOf(queue[q].mini.value, trace) else queue[q].mini == q0[q].mini
    requires OwnsAll(q0, t0)
    ensures OwnsAll(queue, top) <==> TraceFits(q0, t0, q, trace)
  {
    hide Held, Hit;
    var recorded := first < MAP_SIZE && RecordsAt(q0, t0, q, trace, first);
    forall i | 0 <= i < MAP_SIZE
      ensures Owns(queue, top, i) == (Wins(q0, t0, q, trace, i) ==> recorded || (q0[q].mini.Some? && Hit(q0[q].mini.value, i)))
    {
      assert Owns(q0, t0, i);
      if !Wins(q0, t0, q, trace, i) && t0[i].Some? {
        HeldPositive(top, i, t0[i].value);
        if t0[i].value == q && recorded {
          WonOnce(q0, t0, q, i);
        }
      }
    }
    forall s | 0 <= s < MAP_SIZE && RecordsAt(q0, t0, q, trace, s)
      ensures s == first
    {
    }
    if OwnsAll(queue, top) && !recorded {
      assert forall i :: 0 <= i < MAP_SIZE ==> Owns(queue, top, i);
    }
  }

  // ---------------------------------------------------------------------------------------------
  // Culling

  ghost predicate SameTraceBodies(queue: seq<Entry>, other: seq<Entry>) {
    |queue| == |other| && forall e :: 0 <= e < |queue| ==> queue[e].(favored := other[e].favored) == other[e]
  }

  lemma SameIsSame(queue: seq<Entry>)
    ensures SameTraceBodies(queue, queue)
  {
  }

  /** Byte `i` has been picked, or a pick hits it. */
  ghost predicate Seen(queue: seq<Entry>, picks: seq<(nat, nat)>, i: nat)
    requires i < MAP_SIZE && forall k :: 0 <= k < |picks| ==> picks[k].1 < |queue| && queue[picks[k].1].mini.Some?
  {
    exists k :: 0 <= k < |picks| && picks[k].0 <= i && (picks[k].0 == i || Hit(queue[picks[k].1].mini.value, i))
  }

  /** The picks among the bytes below `n`: each pair is a byte that no earlier pick hits, with its winner,
      and no byte with a winner is passed over. The favored entries are the picked ones. */
  ghost predicate Drawn(queue: seq<Entry>, top: Slots, n: nat, picks: seq<(nat, nat)>) {
    && |top| == MAP_SIZE && n <= MAP_SIZE
    && (forall k :: 0 <= k < |picks| ==>
          && picks[k].0 < n && picks[k].1 < |queue| && top[picks[k].0] == Some(picks[k].1)
          && queue[picks[k].1].mini.Some?)
    && (forall k, l :: 0 <= k < l < |picks| ==>
          picks[k].0 < picks[l].0 && !Hit(queue[picks[k].1].mini.value, picks[l].0))
    && (forall i :: 0 <= i < n && top[i].Some? ==> Seen(queue, picks, i))
    && (forall e :: 0 <= e < |queue| && queue[e].favored ==> exists k :: 0 <= k < |picks| && picks[k].1 == e)
    && (forall k :: 0 <= k < |picks| ==> queue[picks[k].1].favored)
  }

  /** Picks of pairwise different entries. */
  ghost predicate Greedy(queue: seq<Entry>, top: Slots, picks: seq<(nat, nat)>) {
    && Drawn(queue, top, MAP_SIZE, picks)
    && forall k, l :: 0 <= k < l < |picks| ==> picks[k].1 != picks[l].1
  }

  /** The state of culling before byte `n`: `v` marks the bytes that no favored entry hits. */
  ghost predicate Culled(queue: seq<Entry>, top: Slots, v: Mini, n: nat, picks: seq<(nat, nat)>) {
    && Drawn(queue, top, n, picks)
    && (forall i :: 0 <= i < MAP_SIZE ==> Hit(v, i) == !CoveredByte(queue, i))
  }

  lemma AllBits(v: Mini)
    requires forall j :: 0 <= j < MINI_SIZE ==> v[j] == 0xff
    ensures forall i :: 0 <= i < MAP_SIZE ==> Hit(v, i)
  {
    hide TestBit;
    forall i | 0 <= i < MAP_SIZE
      ensures Hit(v, i)
    {
      ConstantBytes(i % 8);
    }
  }

  lemma StartCull(queue: seq<Entry>, top: Slots, v: Mini)
    requires |top| == MAP_SIZE && forall e :: 0 <= e < |queue| ==> !queue[e].favored
    requires forall i :: 0 <= i < MAP_SIZE ==> Hit(v, i)
    ensures Culled(queue, top, v, 0, [])
  {
  }

  /** Where winners own their bytes, no entry is picked twice and the picks are a cover. */
  lemma DoneCull(queue: seq<Entry>, top: Slots, v: Mini, picks: seq<(nat, nat)>)
    requires Culled(queue, top, v, MAP_SIZE, picks) && OwnsAll(queue, top)
    ensures Cover(queue, top) && Greedy(queue, top, picks)
  {
    hide Hit;
    forall i | 0 <= i < MAP_SIZE && top[i].Some?
      ensures CoveredByte(queue, i)
    {
      assert Owns(queue, top, i) && Seen(queue, picks, i);
    }
    forall k, l | 0 <= k < l < |picks|
      ensures picks[k].1 != picks[l].1
    {
      assert Owns(queue, top, picks[l].0);
    }
  }

  lemma Picked(queue: seq<Entry>, top: Slots, v: Mini, v': Mini, i: nat, e: nat, picks: seq<(nat, nat)>)
    requires i < MAP_SIZE && Culled(queue, top, v, i, picks)
    requires top[i] == Some(e) && e < |queue| && Hit(v, i) && queue[e].mini.Some?
    requires forall j :: 0 <= j < MAP_SIZE ==> Hit(v', j) == (Hit(v, j) && !Hit(queue[e].mini.value, j))
    ensures OwnsAll(queue, top) ==> !queue[e].favored
    ensures Culled(queue[e := queue[e].(favored := true)], top, v', i + 1, picks + [(i, e)])
  {
    hide Hit;
    assert !CoveredByte(queue, i);
    if OwnsAll(queue, top) { assert Owns(queue, top, i); }
    var queue' := queue[e := queue[e].(favored := true)];
    forall j | 0 <= j < MAP_SIZE
      ensures Hit(v', j) == !CoveredByte(queue', j)
    {
      NowCovered(queue, e, j);
    }
    PickIsDrawn(queue, top, i, e, picks);
  }

  /** A byte that an earlier pick hits, or that has no winner, is passed over. */
  lemma NotPicked(queue: seq<Entry>, top: Slots, v: Mini, i: nat, picks: seq<(nat, nat)>)
    requires i < MAP_SIZE && Culled(queue, top, v, i, picks) && (top[i].None? || !Hit(v, i))
    ensures Culled(queue, top, v, i + 1, picks)
  {
    hide Hit, Seen, CoveredByte;
    if top[i].Some? {
      assert CoveredByte(queue, i);
      CoveredIsSeen(queue, top, i, picks);
    }
  }

  lemma CoveredIsSeen(queue: seq<Entry>, top: Slots, i: nat, picks: seq<(nat, nat)>)
    requires i < MAP_SIZE && Drawn(queue, top, i, picks) && CoveredByte(queue, i)
    ensures Seen(queue, picks, i)
  {
    hide Hit;
    var e :| 0 <= e < |queue| && queue[e].favored && queue[e].mini.Some? && Hit(queue[e].mini.value, i);
    var k :| 0 <= k < |picks| && picks[k].1 == e;
  }

  lemma NowCovered(queue: seq<Entry>, e: nat, j: nat)
    requires e < |queue| && j < MAP_SIZE && queue[e].mini.Some?
    ensures CoveredByte(queue[e := queue[e].(favored := true)], j) == (CoveredByte(queue, j) || Hit(queue[e].mini.value, j))
  {
    hide Hit;
    var queue' := queue[e := queue[e].(favored := true)];
    if CoveredByte(queue, j) {
      var f :| 0 <= f < |queue| && queue[f].favored && queue[f].mini.Some? && Hit(queue[f].mini.value, j);
      assert queue'[f].favored && queue'[f].mini == queue[f].mini;
    }
    if Hit(queue[e].mini.value, j) {
      assert queue'[e].favored;
    }
  }

  lemma PickIsDrawn(queue: seq<Entry>, top: Slots, i: nat, e: nat, picks: seq<(nat, nat)>)
    requires i < MAP_SIZE && Drawn(queue, top, i, picks) && e < |queue| && top[i] == Some(e) && queue[e].mini.Some?
    requires !CoveredByte(queue, i)
    ensures Drawn(queue[e := queue[e].(favored := true)], top, i + 1, picks + [(i, e)])
  {
    hide Hit, Seen;
    var queue', picks' := queue[e := queue[e].(favored := true)], picks + [(i, e)];
    forall f | 0 <= f < |queue'| && queue'[f].favored
      ensures exists k :: 0 <= k < |picks'| && picks'[k].1 == f
    {
      if f == e {
        assert picks'[|picks|].1 == f;
      } else {
        var k :| 0 <= k < |picks| && picks[k].1 == f;
        assert picks'[k].1 == f;
      }
    }
    forall j | 0 <= j <= i && top[j].Some?
      ensures Seen(queue', picks', j)
    {
      StillSeen(queue, picks, i, e, j);
    }
    forall k | 0 <= k < |picks|
      ensures !Hit(queue'[picks[k].1].mini.value, i)
    {
      assert queue[picks[k].1].favored;
    }
  }

  lemma StillSeen(queue: seq<Entry>, picks: seq<(nat, nat)>, i: nat, e: nat, j: nat)
    requires j <= i < MAP_SIZE && e < |queue| && queue[e].mini.Some?
    requires forall k :: 0 <= k < |picks| ==> picks[k].1 < |queue| && queue[picks[k].1].mini.Some?
    requires j == i || Seen(queue, picks, j)
    ensures Seen(queue[e := queue[e].(favored := true)], picks + [(i, e)], j)
  {
    hide Hit;
    var picks' := picks + [(i, e)];
    if j == i {
      assert picks'[|picks|].0 == j;
    } else {
      var k :| 0 <= k < |picks| && picks[k].0 <= j && (picks[k].0 == j || Hit(queue[picks[k].1].mini.value, j));
      assert picks'[k] == picks[k];
    }
  }

  lemma Appended(queue: seq<Entry>, top: Slots, q: Entry)
    requires RefsExact(queue, top) && q.tcRef == 0 && q.mini.None? && !q.favored
    ensures RefsExact(queue + [q], top)
    ensures OwnsAll(queue, top) ==> OwnsAll(queue + [q], top)
    ensures Cover(queue, top) ==> Cover(queue + [q], top)
  {
    hide Hit, Held;
    var queue' := queue + [q];
    if Held(top, |queue|) > 0 {
      var i := HeldWitness(top, |queue|);
    }
    assert forall i :: 0 <= i < MAP_SIZE ==> Owns(queue, top, i) ==> Owns(queue', top, i);
    if Cover(queue, top) {
      forall i | 0 <= i < MAP_SIZE && top[i].Some?
        ensures CoveredByte(queue', i)
      {
        var e :| 0 <= e < |queue| && queue[e].favored && queue[e].mini.Some? && Hit(queue[e].mini.value, i);
        assert queue'[e] == queue[e];
      }
    }
  }

  lemma SameRefs(queue: seq<Entry>, other: seq<Entry>, top: Slots)
    requires RefsExact(queue, top) && |queue| == |other|
    requires forall e :: 0 <= e < |queue| ==> queue[e].tcRef == other[e].tcRef && queue[e].mini == other[e].mini
    ensures RefsExact(other, top)
    ensures OwnsAll(queue, top) ==> OwnsAll(other, top)
  {
    hide Hit, Held;
    assert forall i :: 0 <= i < MAP_SIZE ==> Owns(queue, top, i) ==> Owns(other, top, i);
  }

  lemma SameTraces(queue: seq<Entry>, other: seq<Entry>, top: Slots)
    requires RefsExact(queue, top) && |queue| == |other|
    requires forall e :: 0 <= e < |queue| ==>
               queue[e].tcRef == other[e].tcRef && queue[e].mini == other[e].mini && queue[e].favored == other[e].favored
    ensures RefsExact(other, top)
    ensures OwnsAll(queue, top) ==> OwnsAll(other, top)
    ensures Cover(queue, top) ==> Cover(other, top)
  {
    hide Hit, Held;
    SameRefs(queue, other, top);
    if Cover(queue, top) {
      forall i | 0 <= i < MAP_SIZE && top[i].Some?
        ensures CoveredByte(other, i)
      {
        var e :| 0 <= e < |queue| && queue[e].favored && queue[e].mini.Some? && Hit(queue[e].mini.value, i);
        assert other[e].favored;
      }
    }
  }

  // ---------------------------------------------------------------------------------------------
  // Whole runs

  /** An entry without a recorded trace, or with one of the same hit bytes, may be rescored. */
  lemma SameHitsFit(queue: seq<Entry>, top: Slots, q: nat, trace: Trace)
    requires Indexed(queue, top, q)
    requires queue[q].mini.Some? ==> IsMiniOf(queue[q].mini.value, trace)
    ensures TraceFits(queue, top, q, trace)
  {
    hide Hit;
    if queue[q].mini.None? {
      var s := FindFirstWin(queue, top, q, trace, 0);
      assert s < MAP_SIZE ==> RecordsAt(queue, top, q, trace, s);
    }
  }

  lemma FindFirstWin(queue: seq<Entry>, top: Slots, q: nat, trace: Trace, n: nat) returns (s: nat)
    requires Indexed(queue, top, q) && n <= MAP_SIZE
    requires forall i :: 0 <= i < n ==> !Wins(queue, top, q, trace, i)
    ensures s <= MAP_SIZE && (s < MAP_SIZE ==> Wins(queue, top, q, trace, s))
    ensures forall i :: 0 <= i < s ==> !Wins(queue, top, q, trace, i)
    decreases MAP_SIZE - n
  {
    if n == MAP_SIZE || Wins(queue, top, q, trace, n) {
      s := n;
    } else {
      s := FindFirstWin(queue, top, q, trace, n + 1);
    }
  }

  /** The trace that hits the bytes from `lo` to `hi`. */
  function Between(lo: nat, hi: nat): Trace {
    seq(MAP_SIZE, i => if lo <= i < hi then 1 else 0)
  }

  /** Culling when entry 0 won bytes 0 to 2 under a compact trace of bytes 0 and 1: byte 2 is picked too. */
  lemma StalePicks(queue: seq<Entry>, top: Slots, picks: seq<(nat, nat)>)
    requires |queue| == 1 && Drawn(queue, top, MAP_SIZE, picks)
    requires forall i :: 0 <= i < MAP_SIZE ==> top[i] == if i < 3 then Some(0) else None
    requires queue[0].mini.Some? && IsMiniOf(queue[0].mini.value, Between(0, 2))
    ensures |picks| == 2 && queue[0].favored && !CoveredByte(queue, 2)
  {
    hide Hit;
    assert |picks| > 2 ==> picks[1].0 < picks[2].0;
    assert Seen(queue, picks, 0) && Seen(queue, picks, 2);
    var m := queue[0].mini.value;
    assert Hit(m, 1) && !Hit(m, 2);
    forall k | 0 <= k < |picks|
      ensures picks[k].0 < 3 && picks[k].1 == 0 && picks[k].0 == if k == 0 then 0 else 2
    {
      assert top[picks[k].0] == Some(picks[k].1);
    }
  }

  /** Rescoring with other hit bytes breaks the cover. An entry wins bytes 0 and 1 and is then scored with
      a trace that hits only byte 2, which it wins under a compact trace without that byte. Culling picks
      it twice, counts two favored entries where there is one, and leaves byte 2 uncovered. */
  method StaleTraceRun() returns (c: Corpus)
    ensures !OwnsAll(c.queue, c.topRated) && !c.dumbMode && !c.scoreChanged
    ensures c.queuedFavored == 2 && CountIf(c.queue, Favored) == 1
    ensures |c.topRated| == MAP_SIZE && c.topRated[2] == Some(0) && !CoveredByte(c.queue, 2)
  {
    hide Hit, Held;
    c := new Corpus(false);
    c.AddToQueue(1);
    c.UpdateBitmapScore(0, Between(0, 2));
    StaleTop(c.topRated, c.queue);
    assert IsMiniOf(c.queue[0].mini.value, Between(0, 2));
    ghost var q1, t1 := c.queue, c.topRated;
    c.UpdateBitmapScore(0, Between(2, 3));
    assert Wins(q1, t1, 0, Between(2, 3), 2);
    ghost var q2 := c.queue;
    ghost var picks := c.CullQueue();
    StalePicks(c.queue, c.topRated, picks);
    assert !Owns(c.queue, c.topRated, 2);
    assert c.queue[..0] == [];
  }

  lemma StaleTop(top: Slots, queue: seq<Entry>)
    requires RefsExact(queue, top) && |queue| == 1 && top[0] == Some(0)
    ensures queue[0].mini.Some?
  {
    HeldPositive(top, 0, 0);
  }

  datatype Event =
    | Add(len: nat)
    | Score(q: nat, execUs: nat, len: nat)
    | Cull
    | Fuzzed(q: nat, calFailed: bool, stopSoon: bool)

  ghost predicate RecordedTraces(queue: seq<Entry>, traceOf: nat -> Trace) {
    forall e :: 0 <= e < |queue| && queue[e].mini.Some? ==> IsMiniOf(queue[e].mini.value, traceOf(e))
  }

  /** Any run in which each entry keeps its hit bytes: counts stay exact and culling yields a cover. */
  method Run(c: Corpus, events: seq<Event>, traceOf: nat -> Trace)
    requires c.Exact() && c.Consistent() && RecordedTraces(c.queue, traceOf)
    modifies c
    ensures c.Exact() && c.Consistent() && RecordedTraces(c.queue, traceOf)
  {
    hide Held, Hit, CountIf, RefsExact, OwnsAll, Cover, IsMiniOf, TraceFits;
    var i := 0;
    while i < |events|
      invariant 0 <= i <= |events| && c.Exact() && c.Consistent() && RecordedTraces(c.queue, traceOf)
    {
      match events[i] {
        case Add(len) =>
          c.AddToQueue(len);
        case Score(q, execUs, len) =>
          if q < |c.queue| {
            c.SetTiming(q, execUs, len);
            IndexedIs(c.queue, c.topRated, q);
            SameHitsFit(c.queue, c.topRated, q, traceOf(q));
            c.UpdateBitmapScore(q, traceOf(q));
          }
        case Cull =>
          ghost var picks := c.CullQueue();
        case Fuzzed(q, calFailed, stopSoon) =>
          if q < |c.queue| {
            c.MarkFuzzed(q, calFailed, stopSoon);
          }
      }
      i := i + 1;
    }
  }

  lemma IndexedIs(queue: seq<Entry>, top: Slots, q: nat)
    requires RefsExact(queue, top) && q < |queue|
    ensures Indexed(queue, top, q)
  {
  }
}
