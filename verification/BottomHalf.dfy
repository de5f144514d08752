/** Bottom halves: a linked list of callbacks with a poll that may be re-entered from the callbacks it
    fires. Memory is explicit: nodes live in a map from addresses, so that following a pointer to a freed
    node is an error the verifier rules out. */
module BottomHalf {
  import opened Wire

  datatype Bh = Bh(scheduled: bool, idle: bool, deleted: bool, next: Option<nat>)

  type Heap = map<nat, Bh>

  /** What a callback does when it fires, in order. A nested poll comes with the behaviour of each
      callback it will fire; a callback past the end of that list does nothing. */
  datatype Act =
    | Create
    | Schedule(id: nat)
    | ScheduleIdle(id: nat)
    | Cancel(id: nat)
    | Delete(id: nat)
    | Nest(fires: seq<Callback>)

  datatype Callback = Callback(acts: seq<Act>)

  /** The journal. Requests are recorded even if they change nothing; `depth` counts nested polls. */
  datatype Event =
    | Fired(id: nat, idle: bool, depth: nat)
    | Created(id: nat)
    | Scheduled(id: nat, idle: bool)
    | Cancelled(id: nat)
    | Deleted(id: nat)
    | Swept

  // ---------------------------------------------------------------------------------------------
  // Specification

  ghost predicate Members(nodes: Heap, list: seq<nat>) {
    (forall i :: 0 <= i < |list| ==> list[i] in nodes) && (forall id :: id in nodes ==> id in list)
  }

  /** Newest first, so no node twice. */
  ghost predicate Ordered(list: seq<nat>, nextId: nat) {
    && (forall i :: 0 <= i < |list| ==> list[i] < nextId)
    && (forall i, j :: 0 <= i < j < |list| ==> list[i] > list[j])
  }

  ghost predicate Pointers(nodes: Heap, list: seq<nat>) {
    forall i :: 0 <= i < |list| ==> list[i] in nodes && nodes[list[i]].next == Following(list, i)
  }

  /** The pointers from `first` spell out `list`, which names every node. */
  ghost predicate Linked(nodes: Heap, first: Option<nat>, list: seq<nat>, nextId: nat) {
    Members(nodes, list) && Ordered(list, nextId) && Pointers(nodes, list) && first == Head(list)
  }

  function Following(list: seq<nat>, i: nat): Option<nat> {
    if i + 1 < |list| then Some(list[i + 1]) else None
  }

  function Head(list: seq<nat>): Option<nat> {
    if list == [] then None else Some(list[0])
  }

  ghost predicate Suffix(a: seq<nat>, b: seq<nat>) {
    |a| <= |b| && b[|b| - |a|..] == a
  }

  predicate Touches(e: Event, id: nat) { (e.Fired? || e.Cancelled? || e.Deleted?) && e.id == id }

  /** The bottom half was fired, cancelled or deleted. */
  ghost predicate Touched(id: nat, events: seq<Event>) {
    exists i :: 0 <= i < |events| && Touches(events[i], id)
  }

  ghost predicate Due(nodes: Heap, id: nat) {
    id in nodes && nodes[id].scheduled && !nodes[id].deleted
  }

  /** A bottom half never fires after it was deleted. */
  ghost predicate NoLateFire(events: seq<Event>) {
    forall i, j :: 0 <= i < j < |events| && events[i].Deleted? && events[j].Fired? ==> events[i].id != events[j].id
  }

  /** A bottom half recorded as deleted is marked so, or gone for good. */
  ghost predicate DeletedOk(nodes: Heap, nextId: nat, events: seq<Event>) {
    forall i :: 0 <= i < |events| && events[i].Deleted? ==>
      events[i].id < nextId && (events[i].id in nodes ==> nodes[events[i].id].deleted)
  }

  // What the journal says about memory

  datatype Flags = Flags(scheduled: bool, idle: bool, deleted: bool)

  /** The bottom halves that exist, with their flags, and the next address. */
  datatype Memory = Memory(flags: map<nat, Flags>, nextId: nat)

  function FlagsOf(b: Bh): Flags { Flags(b.scheduled, b.idle, b.deleted) }

  function MemoryOf(nodes: Heap, nextId: nat): Memory {
    Memory(map id | id in nodes :: FlagsOf(nodes[id]), nextId)
  }

  function Change(m: Memory, id: nat, f: Flags): Memory { m.(flags := m.flags[id := f]) }

  /** What one entry of the journal does. */
  function Effect(m: Memory, e: Event): Memory {
    match e
    case Created(id) => Memory(m.flags[id := Flags(false, false, false)], id + 1)
    case Swept => m.(flags := map id | id in m.flags && !m.flags[id].deleted :: m.flags[id])
    case Fired(id, _, _) => if id in m.flags then Change(m, id, Flags(false, false, m.flags[id].deleted)) else m
    case Scheduled(id, idle) =>
      if id in m.flags && !m.flags[id].scheduled then Change(m, id, Flags(true, idle, m.flags[id].deleted)) else m
    case Cancelled(id) => if id in m.flags then Change(m, id, m.flags[id].(scheduled := false)) else m
    case Deleted(id) => if id in m.flags then Change(m, id, m.flags[id].(scheduled := false, deleted := true)) else m
  }

  function After(m: Memory, es: seq<Event>): Memory {
    if es == [] then m else Effect(After(m, es[..|es| - 1]), es[|es| - 1])
  }

  lemma {:induction false} AfterAppend(m: Memory, a: seq<Event>, b: seq<Event>)
    ensures After(m, a + b) == After(After(m, a), b)
  {
    if b == [] {
      assert a + b == a;
    } else {
      assert (a + b)[..|a + b| - 1] == a + b[..|b| - 1];
      AfterAppend(m, a, b[..|b| - 1]);
    }
  }

  // What a poll must do, given the behaviour of its callbacks

  /** `ev` is what `act` causes in memory `m`, done at nesting depth `depth`. */
  ghost predicate ActOf(act: Act, depth: nat, m: Memory, ev: seq<Event>)
    decreases act
  {
    match act
    case Create => ev == [Created(m.nextId)]
    case Schedule(id) => ev == if id in m.flags then [Scheduled(id, false)] else []
    case ScheduleIdle(id) => ev == if id in m.flags then [Scheduled(id, true)] else []
    case Cancel(id) => ev == if id in m.flags then [Cancelled(id)] else []
    case Delete(id) => ev == if id in m.flags then [Deleted(id)] else []
    case Nest(fires) => PollOf(fires, depth, m, ev)
  }

  /** The first `i` acts of a callback, one after the other. */
  ghost predicate ActsOf(cb: Callback, i: nat, depth: nat, m: Memory, ev: seq<Event>)
    requires i <= |cb.acts|
    decreases cb, i
  {
    if i == 0 then ev == []
    else
      exists n ::
        && 0 <= n <= |ev| && ActsOf(cb, i - 1, depth, m, ev[..n])
        && ActOf(cb.acts[i - 1], depth, After(m, ev[..n]), ev[n..])
  }

  /** Callback number `k` of a poll runs to its end; one past the end of the list does nothing. */
  ghost predicate CallbackOf(fires: seq<Callback>, k: nat, depth: nat, m: Memory, ev: seq<Event>)
    decreases fires, 0
  {
    if k < |fires| then ActsOf(fires[k], |fires[k].acts|, depth, m, ev) else ev == []
  }

  /** Bottom half `id` fires, and then its callback runs. */
  ghost predicate FireOf(fires: seq<Callback>, k: nat, depth: nat, id: nat, m: Memory, ev: seq<Event>)
    requires id in m.flags
    decreases fires, 1
  {
    && ev != [] && ev[0] == Fired(id, m.flags[id].idle, depth)
    && CallbackOf(fires, k, depth, After(m, ev[..1]), ev[1..])
  }

  predicate DueIn(m: Memory, id: nat) { id in m.flags && m.flags[id].scheduled && !m.flags[id].deleted }

  /** The poll has visited the first `j` bottom halves of `list` and fired `k`: those that were due when it
      came to them. */
  ghost predicate PassOf(fires: seq<Callback>, depth: nat, list: seq<nat>, j: nat, k: nat, m: Memory, ev: seq<Event>)
    requires j <= |list|
    decreases fires, 2, j, 1
  {
    if j == 0 then k == 0 && ev == [] else exists n: nat :: VisitOf(fires, depth, list, j, k, m, ev, n)
  }

  /** The last of those visits began after the first `n` events. */
  ghost predicate VisitOf(fires: seq<Callback>, depth: nat, list: seq<nat>, j: nat, k: nat, m: Memory, ev: seq<Event>, n: nat)
    requires 0 < j <= |list|
    decreases fires, 2, j, 0
  {
    && n <= |ev|
    && var now := After(m, ev[..n]);
       if DueIn(now, list[j - 1]) then
         && k > 0 && PassOf(fires, depth, list, j - 1, k - 1, m, ev[..n])
         && FireOf(fires, k - 1, depth, list[j - 1], now, ev[n..])
       else n == |ev| && PassOf(fires, depth, list, j - 1, k, m, ev)
  }

  /** The bottom halves that exist, newest first. */
  ghost predicate Listing(m: Memory, list: seq<nat>) {
    && (forall i, j :: 0 <= i < j < |list| ==> list[i] > list[j])
    && (forall id :: id in list <==> id in m.flags)
  }

  ghost predicate PollFires(fires: seq<Callback>, depth: nat, list: seq<nat>, k: nat, m: Memory, ev: seq<Event>)
    decreases fires, 3
  {
    && Listing(m, list)
    && if depth > 0 then PassOf(fires, depth + 1, list, |list|, k, m, ev)
       else ev != [] && ev[|ev| - 1] == Swept && PassOf(fires, 1, list, |list|, k, m, ev[..|ev| - 1])
  }

  /** A whole poll: every bottom half there was at the start is visited, newest first; and after the outermost
      poll deleted ones are freed. */
  ghost predicate PollOf(fires: seq<Callback>, depth: nat, m: Memory, ev: seq<Event>)
    decreases fires, 4
  {
    exists list, k :: PollFires(fires, depth, list, k, m, ev)
  }

  /** State at one moment. */
  datatype State = State(nodes: Heap, list: seq<nat>, nextId: nat, nesting: nat, events: seq<Event>) {
    function Memory(): Memory { MemoryOf(nodes, nextId) }
  }

  ghost predicate Good(s: State) {
    NoLateFire(s.events) && DeletedOk(s.nodes, s.nextId, s.events)
  }

  /** What any activity keeps: it only adds events; while a poll is in progress it adds nodes at the front
      of the list and removes none; a bottom half that was due still is, or was touched; and memory is what
      the journal says. */
  ghost predicate Extends(a: State, b: State) {
    && a.nesting == b.nesting && a.nextId <= b.nextId
    && a.events <= b.events
    && (a.nesting > 0 ==> Suffix(a.list, b.list))
    && (forall id :: Due(a.nodes, id) ==> Due(b.nodes, id) || Touched(id, b.events[|a.events|..]))
    && b.Memory() == After(a.Memory(), b.events[|a.events|..])
  }

  /** Since `a`, only polls nested deeper than `depth` have fired anything. */
  ghost predicate Deeper(a: seq<Event>, b: seq<Event>, depth: nat) {
    forall i :: |a| <= i < |b| && b[i].Fired? ==> b[i].depth > depth
  }

  lemma ExtendsRefl(a: State)
    ensures Extends(a, a)
  {
  }

  lemma ExtendsTrans(a: State, b: State, c: State)
    requires Extends(a, b) && Extends(b, c)
    ensures Extends(a, c)
  {
    hide Due, MemoryOf;
    if a.nesting > 0 { SuffixTrans(a.list, b.list, c.list); }
    JournalTrans(a, b, c);
    forall id | Due(a.nodes, id) ensures Due(c.nodes, id) || Touched(id, c.events[|a.events|..]) {
      TouchedLater(id, a.events, b.events, c.events);
    }
  }

  lemma JournalTrans(a: State, b: State, c: State)
    requires a.events <= b.events <= c.events
    requires b.Memory() == After(a.Memory(), b.events[|a.events|..])
    requires c.Memory() == After(b.Memory(), c.events[|b.events|..])
    ensures c.Memory() == After(a.Memory(), c.events[|a.events|..])
  {
    hide After, MemoryOf;
    AfterAppend(a.Memory(), b.events[|a.events|..], c.events[|b.events|..]);
    assert c.events[|a.events|..] == b.events[|a.events|..] + c.events[|b.events|..];
  }

  lemma SuffixTrans(a: seq<nat>, b: seq<nat>, c: seq<nat>)
    requires Suffix(a, b) && Suffix(b, c)
    ensures Suffix(a, c)
  {
    assert c[|c| - |a|..] == b[|b| - |a|..];
  }

  lemma SuffixTail(a: seq<nat>, b: seq<nat>)
    requires Suffix(a, b) && a != []
    ensures Suffix(a[1..], b)
  {
    assert b[|b| - |a| + 1..] == a[1..];
  }

  lemma TouchedLater(id: nat, a: seq<Event>, b: seq<Event>, c: seq<Event>)
    requires a <= b <= c
    ensures Touched(id, b[|a|..]) || Touched(id, c[|b|..]) ==> Touched(id, c[|a|..])
  {
    if Touched(id, b[|a|..]) {
      var i :| 0 <= i < |b[|a|..]| && Touches(b[|a|..][i], id);
      assert c[|a|..][i] == b[|a|..][i];
    }
    if Touched(id, c[|b|..]) {
      var i :| 0 <= i < |c[|b|..]| && Touches(c[|b|..][i], id);
      assert c[|a|..][i + |b| - |a|] == c[|b|..][i];
    }
  }

  lemma LinkedFlags(nodes: Heap, first: Option<nat>, list: seq<nat>, nextId: nat, id: nat, b: Bh)
    requires Linked(nodes, first, list, nextId) && id in nodes && b.next == nodes[id].next
    ensures Linked(nodes[id := b], first, list, nextId)
  {
    hide Ordered, Following;
  }

  lemma LinkedNew(nodes: Heap, first: Option<nat>, list: seq<nat>, id: nat)
    requires Linked(nodes, first, list, id)
    ensures id !in nodes
    ensures Linked(nodes[id := Bh(false, false, false, first)], Some(id), [id] + list, id + 1)
  {
    hide Ordered, Members, Pointers;
    NewMembers(nodes, list, id, Bh(false, false, false, first));
    NewPointers(nodes, first, list, id);
  }

  lemma NewMembers(nodes: Heap, list: seq<nat>, id: nat, b: Bh)
    requires Members(nodes, list) && Ordered(list, id)
    ensures id !in nodes && id !in list
    ensures Members(nodes[id := b], [id] + list) && Ordered([id] + list, id + 1)
  {
    assert ([id] + list)[0] == id;
  }

  lemma NewPointers(nodes: Heap, first: Option<nat>, list: seq<nat>, id: nat)
    requires Pointers(nodes, list) && first == Head(list) && id !in list
    ensures Pointers(nodes[id := Bh(false, false, false, first)], [id] + list)
  {
    var nodes', list' := nodes[id := Bh(false, false, false, first)], [id] + list;
    forall i | 0 <= i < |list'| ensures list'[i] in nodes' && nodes'[list'[i]].next == Following(list', i) {
      if i > 0 { assert list'[i] == list[i - 1] && list[i - 1] in nodes; }
    }
  }

  /** Position in the shortened list, and where it came from. */
  lemma RemovedAt(list: seq<nat>, k: nat)
    requires k < |list|
    ensures forall i :: 0 <= i < |list| - 1 ==> (list[..k] + list[k + 1..])[i] == if i < k then list[i] else list[i + 1]
  {
  }

  lemma RemovedOrder(list: seq<nat>, nextId: nat, k: nat)
    requires Ordered(list, nextId) && k < |list|
    ensures Ordered(list[..k] + list[k + 1..], nextId) && list[k] !in list[..k] + list[k + 1..]
  {
    RemovedAt(list, k);
  }

  lemma RemovedMembers(nodes: Heap, list: seq<nat>, nextId: nat, k: nat, nodes': Heap)
    requires Members(nodes, list) && Ordered(list, nextId) && k < |list| && nodes'.Keys == nodes.Keys - {list[k]}
    ensures Members(nodes', list[..k] + list[k + 1..])
  {
    var list' := list[..k] + list[k + 1..];
    RemovedOrder(list, nextId, k);
    RemovedAt(list, k);
    hide Ordered;
    forall i | 0 <= i < |list'| ensures list'[i] in nodes' {
      assert list'[i] in list' && (list'[i] == list[i] || list'[i] == list[i + 1]);
    }
    forall id | id in nodes' ensures id in list' {
      var i :| 0 <= i < |list| && list[i] == id;
      assert list'[if i < k then i else i - 1] == id;
    }
  }

  /** The pointers after the node at `k` was unlinked. */
  lemma RemovedPointers(nodes: Heap, list: seq<nat>, k: nat, nodes': Heap)
    requires Pointers(nodes, list) && k < |list|
    requires forall i, j :: 0 <= i < j < |list| ==> list[i] != list[j]
    requires forall i :: 0 <= i < |list| && i != k ==>
      list[i] in nodes' && nodes'[list[i]].next == if i + 1 == k then nodes[list[k]].next else nodes[list[i]].next
    ensures Pointers(nodes', list[..k] + list[k + 1..])
  {
    RemovedAt(list, k);
    var list' := list[..k] + list[k + 1..];
    forall i | 0 <= i < |list'| ensures list'[i] in nodes' && nodes'[list'[i]].next == Following(list', i) {
      var m := if i < k then i else i + 1;
      assert list'[i] == list[m];
      assert nodes[list[m]].next == Following(list, m) && nodes[list[k]].next == Following(list, k);
    }
  }

  lemma PointersWithoutFirst(nodes: Heap, list: seq<nat>)
    requires Pointers(nodes, list) && list != [] && forall i, j :: 0 <= i < j < |list| ==> list[i] != list[j]
    ensures list[0] in nodes && nodes[list[0]].next == Head(list[..0] + list[1..])
    ensures Pointers(nodes - {list[0]}, list[..0] + list[1..])
  {
    assert nodes[list[0]].next == Following(list, 0);
    assert list[..0] + list[1..] == list[1..];
    forall i | 0 < i < |list| ensures list[i] in nodes - {list[0]} && (nodes - {list[0]})[list[i]] == nodes[list[i]] {}
    RemovedPointers(nodes, list, 0, nodes - {list[0]});
  }

  lemma PointersWithout(nodes: Heap, list: seq<nat>, k: nat)
    requires Pointers(nodes, list) && 0 < k < |list| && forall i, j :: 0 <= i < j < |list| ==> list[i] != list[j]
    ensures var prev := list[k - 1];
      && prev in nodes && list[k] in nodes
      && Pointers(nodes[prev := nodes[prev].(next := nodes[list[k]].next)] - {list[k]}, list[..k] + list[k + 1..])
  {
    var prev := list[k - 1];
    assert prev in nodes && list[k] in nodes;
    var nodes' := nodes[prev := nodes[prev].(next := nodes[list[k]].next)] - {list[k]};
    forall i | 0 <= i < |list| && i != k
      ensures list[i] in nodes' && nodes'[list[i]].next == if i + 1 == k then nodes[list[k]].next else nodes[list[i]].next
    {
      assert list[i] in nodes && list[i] != list[k];
    }
    hide Pointers;
    RemovedPointers(nodes, list, k, nodes');
  }

  lemma UnlinkFirst(nodes: Heap, first: Option<nat>, list: seq<nat>, nextId: nat)
    requires Linked(nodes, first, list, nextId) && list != []
    ensures list[0] in nodes && Linked(nodes - {list[0]}, nodes[list[0]].next, list[..0] + list[1..], nextId)
  {
    hide Ordered, Members, Pointers, Head;
    OrderedDistinct(list, nextId);
    PointersWithoutFirst(nodes, list);
    RemovedOrder(list, nextId, 0);
    RemovedMembers(nodes, list, nextId, 0, nodes - {list[0]});
  }

  lemma Unlink(nodes: Heap, first: Option<nat>, list: seq<nat>, nextId: nat, k: nat)
    requires Linked(nodes, first, list, nextId) && 0 < k < |list|
    ensures var prev := list[k - 1];
      && prev in nodes && list[k] in nodes
      && Linked(nodes[prev := nodes[prev].(next := nodes[list[k]].next)] - {list[k]}, first, list[..k] + list[k + 1..], nextId)
  {
    hide Ordered, Members, Pointers;
    OrderedDistinct(list, nextId);
    PointersWithout(nodes, list, k);
    var prev := list[k - 1];
    var nodes' := nodes[prev := nodes[prev].(next := nodes[list[k]].next)] - {list[k]};
    RemovedOrder(list, nextId, k);
    RemovedMembers(nodes, list, nextId, k, nodes');
  }

  lemma OrderedDistinct(list: seq<nat>, nextId: nat)
    requires Ordered(list, nextId)
    ensures forall i, j :: 0 <= i < j < |list| ==> list[i] != list[j]
  {
  }

  lemma OneEvent(m: Memory, e: Event)
    ensures After(m, [e]) == Effect(m, e)
  {
    assert [e][..0] == [];
    assert After(m, []) == m;
  }

  lemma FlagsPut(nodes: Heap, nextId: nat, id: nat, b: Bh)
    requires id in nodes
    ensures MemoryOf(nodes[id := b], nextId) == Change(MemoryOf(nodes, nextId), id, FlagsOf(b))
    ensures id in MemoryOf(nodes, nextId).flags && MemoryOf(nodes, nextId).flags[id] == FlagsOf(nodes[id])
    ensures b == nodes[id] ==> Change(MemoryOf(nodes, nextId), id, FlagsOf(b)) == MemoryOf(nodes, nextId)
  {
  }

  /** Changing the flags of one node, and recording why. */
  lemma FlagStep(a: State, id: nat, b: Bh, e: Event)
    requires Good(a) && id in a.nodes && (a.nodes[id].deleted ==> b.deleted)
    requires Due(a.nodes, id) && !(b.scheduled && !b.deleted) ==> Touches(e, id)
    requires e.Fired? ==> e.id == id && !a.nodes[id].deleted
    requires e.Deleted? ==> e.id == id && b.deleted && id < a.nextId
    requires Change(a.Memory(), id, FlagsOf(b)) == Effect(a.Memory(), e)
    ensures var c := a.(nodes := a.nodes[id := b], events := a.events + [e]);
      Good(c) && Extends(a, c)
  {
    hide MemoryOf, Effect, After;
    var c := a.(nodes := a.nodes[id := b], events := a.events + [e]);
    assert c.events[|a.events|..] == [e];
    FlagsPut(a.nodes, a.nextId, id, b);
    OneEvent(a.Memory(), e);
    assert Extends(a, c) by {
      forall x | Due(a.nodes, x) && !Due(c.nodes, x) ensures Touched(x, c.events[|a.events|..]) {
        assert x == id && Touches([e][0], x);
      }
    }
  }

  lemma NewStep(a: State, id: nat, b: Bh)
    requires Good(a) && id == a.nextId && id !in a.nodes && FlagsOf(b) == Flags(false, false, false)
    ensures var c := a.(nodes := a.nodes[id := b], list := [id] + a.list, nextId := id + 1, events := a.events + [Created(id)]);
      Good(c) && Extends(a, c)
  {
    hide After;
    var c := a.(nodes := a.nodes[id := b], list := [id] + a.list, nextId := id + 1, events := a.events + [Created(id)]);
    assert ([id] + a.list)[1..] == a.list;
    assert c.events[|a.events|..] == [Created(id)];
    OneEvent(a.Memory(), Created(id));
  }

  // ---------------------------------------------------------------------------------------------

  class Context {
    var first: Option<nat>
    var nodes: Heap
    var nesting: nat
    /** The next address the allocator hands out; addresses are not reused. */
    var nextId: nat
    ghost var list: seq<nat>
    ghost var events: seq<Event>

    ghost function Now(): State
      reads this
    {
      State(nodes, list, nextId, nesting, events)
    }

    ghost predicate Valid()
      reads this
    {
      Linked(nodes, first, list, nextId) && Good(Now())
    }

    /** `qemu_bh_new` */
    method New() returns (id: nat)
      requires Valid()
      modifies this
      ensures Valid() && Extends(old(Now()), Now())
      ensures id == old(nextId) && nodes == old(nodes)[id := Bh(false, false, false, old(first))]
      ensures id !in old(nodes) && events == old(events) + [Created(id)]
    {
      hide Linked, Good, Extends;
      LinkedNew(nodes, first, list, nextId);
      NewStep(Now(), nextId, Bh(false, false, false, first));
      id := nextId;
      nextId := nextId + 1;
      nodes := nodes[id := Bh(false, false, false, first)];
      first := Some(id);
      list := [id] + list;
      events := events + [Created(id)];
    }

    /** `qemu_bh_schedule` and `qemu_bh_schedule_idle` */
    method SetScheduled(id: nat, idle: bool)
      requires Valid() && id in nodes
      modifies this`nodes, this`events
      ensures Valid() && Extends(old(Now()), Now())
      ensures nodes == if old(nodes)[id].scheduled then old(nodes) else old(nodes)[id := old(nodes)[id].(scheduled := true, idle := idle)]
      ensures events == old(events) + [Scheduled(id, idle)]
    {
      hide Linked, Good, Extends, MemoryOf;
      ghost var b0 := if nodes[id].scheduled then nodes[id] else nodes[id].(scheduled := true, idle := idle);
      LinkedFlags(nodes, first, list, nextId, id, b0);
      FlagsPut(nodes, nextId, id, b0);
      FlagStep(Now(), id, b0, Scheduled(id, idle));
      assert nodes[id].scheduled ==> nodes[id := b0] == nodes;
      events := events + [Scheduled(id, idle)];
      if nodes[id].scheduled { return; }
      nodes := nodes[id := nodes[id].(scheduled := true, idle := idle)];
    }

    /** `qemu_bh_cancel` */
    method Unschedule(id: nat)
      requires Valid() && id in nodes
      modifies this`nodes, this`events
      ensures Valid() && Extends(old(Now()), Now())
      ensures nodes == old(nodes)[id := old(nodes)[id].(scheduled := false)]
      ensures events == old(events) + [Cancelled(id)]
    {
      hide Linked, Good, Extends, MemoryOf;
      var b := nodes[id].(scheduled := false);
      LinkedFlags(nodes, first, list, nextId, id, b);
      FlagsPut(nodes, nextId, id, b);
      FlagStep(Now(), id, b, Cancelled(id));
      nodes := nodes[id := b];
      events := events + [Cancelled(id)];
    }

    /** `qemu_bh_delete`: only marked; the node stays until the outermost poll is over. */
    method MarkDeleted(id: nat)
      requires Valid() && id in nodes
      modifies this`nodes, this`events
      ensures Valid() && Extends(old(Now()), Now())
      ensures nodes == old(nodes)[id := old(nodes)[id].(scheduled := false, deleted := true)]
      ensures events == old(events) + [Deleted(id)]
    {
      hide Linked, Good, Extends, MemoryOf;
      var b := nodes[id].(scheduled := false, deleted := true);
      LinkedFlags(nodes, first, list, nextId, id, b);
      IdBelow(nodes, first, list, nextId, id);
      FlagsPut(nodes, nextId, id, b);
      FlagStep(Now(), id, b, Deleted(id));
      nodes := nodes[id := b];
      events := events + [Deleted(id)];
    }

    /** One step of a callback. Acting on a bottom half that has been freed would be the caller's error and
        is left out. */
    method Do(act: Act)
      requires Valid()
      modifies this
      ensures Valid() && Extends(old(Now()), Now()) && Deeper(old(events), events, nesting)
      ensures |old(events)| <= |events| && ActOf(act, nesting, old(Now().Memory()), events[|old(events)|..])
      decreases act
    {
      hide Linked, Good, Extends, PollOf;
      ExtendsRefl(Now());
      ghost var start := Now();
      match act {
        case Create => var _ := New();
        case Schedule(id) => if id in nodes { SetScheduled(id, false); }
        case ScheduleIdle(id) => if id in nodes { SetScheduled(id, true); }
        case Cancel(id) => if id in nodes { Unschedule(id); }
        case Delete(id) => if id in nodes { MarkDeleted(id); }
        case Nest(fires) =>
          var ret := Poll(fires);
          ExtendsPrefix(start, Now());
      }
    }

    method Run(cb: Callback)
      requires Valid()
      modifies this
      ensures Valid() && Extends(old(Now()), Now()) && Deeper(old(events), events, nesting)
      ensures |old(events)| <= |events| && ActsOf(cb, |cb.acts|, nesting, old(Now().Memory()), events[|old(events)|..])
      decreases cb
    {
      hide Linked, Good, Due, ActOf, ActsOf, After, MemoryOf;
      ExtendsRefl(Now());
      ghost var start := Now();
      NoActs(cb, nesting, start.Memory());
      assert events[|start.events|..] == [];
      for i := 0 to |cb.acts|
        invariant Valid() && Extends(start, Now()) && Deeper(start.events, events, nesting)
        invariant ActsOf(cb, i, nesting, start.Memory(), events[|start.events|..])
      {
        ghost var before := Now();
        Do(cb.acts[i]);
        ExtendsTrans(start, before, Now());
        ExtendsPrefix(before, Now());
        MoreActs(cb, i, nesting, start, before, Now());
      }
    }

    /** The bottom half is due: its flags are cleared before its callback runs. */
    method StartFire(id: nat) returns (busy: bool)
      requires Valid() && Due(nodes, id)
      modifies this`nodes, this`events
      ensures Valid() && Extends(old(Now()), Now())
      ensures nodes == old(nodes)[id := old(nodes)[id].(scheduled := false, idle := false)]
      ensures busy == !old(nodes)[id].idle && events == old(events) + [Fired(id, !busy, nesting)]
    {
      hide Linked, Good, Extends, MemoryOf;
      var b := nodes[id].(scheduled := false, idle := false);
      busy := !nodes[id].idle;
      LinkedFlags(nodes, first, list, nextId, id, b);
      FlagsPut(nodes, nextId, id, b);
      FlagStep(Now(), id, b, Fired(id, !busy, nesting));
      nodes := nodes[id := b];
      events := events + [Fired(id, !busy, nesting)];
    }

    /** `qemu_bh_poll`. The bottom halves that exist are visited newest first, those due when their turn comes
        are fired, and each callback does what it does, nested polls included. Whatever that is, every bottom
        half that was due when the pass began has been fired, cancelled or deleted when it ends; the result
        says whether this pass itself fired one that was not idle; and once the outermost poll is over no
        deleted node is left. */
    method Poll(fires: seq<Callback>) returns (ret: bool)
      requires Valid()
      modifies this
      ensures Valid() && Polled(fires, old(Now()), Now(), ret)
      ensures nesting == 0 ==> forall id :: id in nodes ==> !nodes[id].deleted
      decreases fires
    {
      hide Linked, Good, Extends, Going, Polled, Listing, MemoryOf;
      ghost var start := Now();
      GoodAnyway(start, nesting + 1);
      ListingOf(nodes, first, list, nextId);
      nesting := nesting + 1;
      ghost var k;
      ret, k := Pass(fires);
      ghost var passed := Now();
      GoingNesting(fires, start, passed, k, ret);
      GoodAnyway(passed, nesting - 1);
      nesting := nesting - 1;
      if nesting == 0 {
        Sweep();
      }
      PollEnds(fires, start, passed, Now(), k, ret);
    }

    /** The poll is at node `id`, which it fires if it is due; `k` callbacks have been fired before it. */
    method Visit(id: nat, fires: seq<Callback>, k: nat) returns (busy: bool, k': nat)
      requires Valid() && id in nodes && nesting > 0
      modifies this
      ensures Valid() && Visited(fires, old(Now()), Now(), id, k, k', busy)
      decreases fires, 2
    {
      hide Linked, Good, Extends, Visited, FireOf, After;
      busy, k' := false, k;
      if !nodes[id].deleted && nodes[id].scheduled {
        busy := Fire(id, fires, k);
        k' := k + 1;
      } else {
        NotFired(fires, Now(), id, k);
      }
    }

    /** A bottom half that is due fires: its callback runs with its flags already cleared. */
    method Fire(id: nat, fires: seq<Callback>, k: nat) returns (busy: bool)
      requires Valid() && Due(nodes, id) && nesting > 0
      modifies this
      ensures Valid() && Visited(fires, old(Now()), Now(), id, k, k + 1, busy)
      decreases fires, 1
    {
      hide Linked, Good, Extends, CallbackOf, Visited, After, MemoryOf, Deeper;
      ghost var start := Now();
      busy := StartFire(id);
      ghost var fired := Now();
      RunNumber(fires, k);
      ExtendsPrefix(fired, Now());
      FireDone(fires, k, id, start, fired, Now(), busy);
    }

    /** Callback number `k` of a poll. */
    method RunNumber(fires: seq<Callback>, k: nat)
      requires Valid()
      modifies this
      ensures Valid() && Extends(old(Now()), Now()) && Deeper(old(events), events, nesting)
      ensures |old(events)| <= |events| && CallbackOf(fires, k, nesting, old(Now().Memory()), events[|old(events)|..])
      decreases fires, 0
    {
      hide Linked, Good, Extends, ActsOf, After, MemoryOf, Deeper;
      ExtendsRefl(Now());
      NoneDeeper(events, nesting);
      if k < |fires| {
        Run(fires[k]);
      }
    }

    /** The loop of the poll. */
    method Pass(fires: seq<Callback>) returns (ret: bool, ghost k: nat)
      requires Valid() && nesting > 0
      modifies this
      ensures Valid() && Going(fires, old(Now()), Now(), |old(list)|, k, ret)
      decreases fires, 3
    {
      hide Linked, Good, Extends, MemoryOf, Going, Visited, Suffix, Head;
      ret := false;
      var bh, n: nat := first, 0;
      ghost var start, rest := Now(), list;
      ghost var j: nat := 0;
      DueInList(nodes, first, list, nextId);
      GoingStarts(fires, start);
      RestStarts(list);
      while bh.Some?
        invariant Valid() && nesting == start.nesting > 0 && Going(fires, start, Now(), j, n, ret)
        invariant bh == Head(rest) && Suffix(rest, list) && Rest(start.list, j, rest)
        decreases |rest|
      {
        var id := bh.value;
        ghost var before, n0, ret0 := Now(), n, ret;
        HeadIs(rest, id);
        NextPointer(nodes, first, list, nextId, rest);
        var next := nodes[id].next;
        var busy;
        busy, n := Visit(id, fires, n);
        VisitedPrefix(fires, before, Now(), id, n0, n, busy);
        ret := ret || busy;
        RestOn(start.list, j, rest);
        GoingOn(fires, start, before, Now(), j, n0, n, ret0, busy);
        SuffixTrans(rest, before.list, list);
        SuffixTail(rest, list);
        bh := next;
        rest := rest[1..];
        j := j + 1;
      }
      HeadIs(rest, 0);
      k := n;
    }

    /** Deleted nodes are unlinked and freed. */
    method Sweep()
      requires Valid() && nesting == 0
      modifies this`first, this`nodes, this`list, this`events
      ensures Valid() && Extends(old(Now()), Now()) && events == old(events) + [Swept]
      ensures forall id :: id in nodes <==> id in old(nodes) && !old(nodes)[id].deleted
      ensures forall id :: id in nodes ==> nodes[id] == old(nodes)[id].(next := nodes[id].next)
    {
      hide Linked, Good, Extends;
      ghost var start := Now();
      ghost var kept: nat := 0;
      var prev: Option<nat> := None;
      ExtendsRefl(start);
      while true
        invariant Linked(nodes, first, list, nextId) && Freed(start.nodes, nodes) && kept <= |list|
        invariant prev == if kept == 0 then None else Some(list[kept - 1])
        invariant forall i :: 0 <= i < kept ==> list[i] in nodes && !nodes[list[i]].deleted
        invariant events == old(events)
        decreases |list| - kept
      {
        LinkAt(nodes, first, list, nextId, kept);
        var bh := if prev == None then first else nodes[prev.value].next;
        if bh == None { break; }
        var id := bh.value;
        if nodes[id].deleted {
          Distinct(nodes, first, list, nextId);
          if kept == 0 { UnlinkFirst(nodes, first, list, nextId); } else { Unlink(nodes, first, list, nextId, kept); }
          if prev == None {
            first := nodes[id].next;
          } else {
            nodes := nodes[prev.value := nodes[prev.value].(next := nodes[id].next)];
          }
          nodes := nodes - {id};
          list := list[..kept] + list[kept + 1..];
        } else {
          prev := bh;
          kept := kept + 1;
        }
      }
      SweptAll(nodes, first, list, nextId);
      events := events + [Event.Swept];
      SweptExtends(start, Now());
    }
  }

  /** Only deleted nodes are gone, and the others keep their flags. */
  ghost predicate Freed(a: Heap, b: Heap) {
    && (forall id :: id in b ==> id in a && b[id] == a[id].(next := b[id].next))
    && (forall id :: id in a && !a[id].deleted ==> id in b)
  }

  lemma SweptExtends(a: State, b: State)
    requires Good(a) && Freed(a.nodes, b.nodes) && a.nesting == 0 && forall id :: id in b.nodes ==> !b.nodes[id].deleted
    requires b == a.(nodes := b.nodes, list := b.list, events := a.events + [Swept])
    ensures Good(b) && Extends(a, b)
  {
    hide After;
    assert b.events[|a.events|..] == [Swept];
    OneEvent(a.Memory(), Swept);
    assert b.Memory() == Effect(a.Memory(), Swept);
  }

  lemma SweptAll(nodes: Heap, first: Option<nat>, list: seq<nat>, nextId: nat)
    requires Linked(nodes, first, list, nextId) && forall i :: 0 <= i < |list| ==> list[i] in nodes && !nodes[list[i]].deleted
    ensures forall id :: id in nodes ==> !nodes[id].deleted
  {
  }

  lemma Distinct(nodes: Heap, first: Option<nat>, list: seq<nat>, nextId: nat)
    requires Linked(nodes, first, list, nextId)
    ensures forall i, j :: 0 <= i < j < |list| ==> list[i] != list[j]
    ensures forall i :: 0 <= i < |list| ==> list[i] in nodes
  {
  }

  /** The pointer that `bhp` points at names the node at its position. */
  lemma LinkAt(nodes: Heap, first: Option<nat>, list: seq<nat>, nextId: nat, k: nat)
    requires Linked(nodes, first, list, nextId) && k <= |list|
    ensures k > 0 ==> list[k - 1] in nodes
    ensures (if k == 0 then first else nodes[list[k - 1]].next) == if k < |list| then Some(list[k]) else None
    ensures k < |list| ==> list[k] in nodes
  {
  }

  lemma NextPointer(nodes: Heap, first: Option<nat>, list: seq<nat>, nextId: nat, rest: seq<nat>)
    requires Linked(nodes, first, list, nextId) && Suffix(rest, list) && rest != []
    ensures rest[0] in nodes && nodes[rest[0]].next == Head(rest[1..])
  {
    var k := |list| - |rest|;
    assert list[k..] == rest && list[k] == rest[0];
    assert |rest| > 1 ==> rest[1] == list[k + 1];
  }

  lemma ExtendsDown(a: State, b: State)
    requires Extends(a, b) && a.nesting > 0
    ensures b.nesting == a.nesting && Extends(a.(nesting := a.nesting - 1), b.(nesting := b.nesting - 1))
  {
  }

  lemma NoActs(cb: Callback, depth: nat, m: Memory)
    ensures ActsOf(cb, 0, depth, m, [])
  {
  }

  lemma MoreActs(cb: Callback, i: nat, depth: nat, a: State, b: State, c: State)
    requires i < |cb.acts| && a.events <= b.events <= c.events
    requires ActsOf(cb, i, depth, a.Memory(), b.events[|a.events|..])
    requires b.Memory() == After(a.Memory(), b.events[|a.events|..])
    requires ActOf(cb.acts[i], depth, b.Memory(), c.events[|b.events|..])
    ensures ActsOf(cb, i + 1, depth, a.Memory(), c.events[|a.events|..])
  {
    hide ActOf, After, MemoryOf;
    var ev, n := c.events[|a.events|..], |b.events| - |a.events|;
    assert ev[..n] == b.events[|a.events|..] && ev[n..] == c.events[|b.events|..];
  }

  lemma FiredThen(fires: seq<Callback>, k: nat, depth: nat, id: nat, a: State, b: State, c: State)
    requires id in a.Memory().flags && b.events == a.events + [Fired(id, a.Memory().flags[id].idle, depth)] && b.events <= c.events
    requires b.Memory() == After(a.Memory(), b.events[|a.events|..])
    requires CallbackOf(fires, k, depth, b.Memory(), c.events[|b.events|..])
    ensures FireOf(fires, k, depth, id, a.Memory(), c.events[|a.events|..])
  {
    hide CallbackOf, After, MemoryOf;
    var ev := c.events[|a.events|..];
    assert ev[0] == b.events[|a.events|];
    assert ev[..1] == b.events[|a.events|..] && ev[1..] == c.events[|b.events|..];
  }

  lemma NoneDeeper(a: seq<Event>, depth: nat)
    ensures Deeper(a, a, depth)
  {
  }

  lemma FiredDeeper(a: seq<Event>, b: seq<Event>, c: seq<Event>, id: nat, idle: bool, depth: nat)
    requires depth > 0 && b == a + [Fired(id, idle, depth)] && b <= c && Deeper(b, c, depth)
    ensures Deeper(a, c, depth - 1)
  {
  }

  /** What visiting node `id` brings about; `k` callbacks were fired before and `k'` after it. */
  ghost predicate Visited(fires: seq<Callback>, a: State, b: State, id: nat, k: nat, k': nat, busy: bool) {
    && Extends(a, b) && a.nesting > 0 && Deeper(a.events, b.events, a.nesting - 1)
    && (Due(a.nodes, id) ==> Touched(id, b.events[|a.events|..]))
    && (busy <==> BusyIn(a.events, b.events, a.nesting))
    && id in a.Memory().flags
    && if DueIn(a.Memory(), id)
       then k' == k + 1 && FireOf(fires, k, a.nesting, id, a.Memory(), b.events[|a.events|..])
       else k' == k && b.events == a.events
  }

  lemma NotFired(fires: seq<Callback>, a: State, id: nat, k: nat)
    requires a.nesting > 0 && id in a.nodes && !Due(a.nodes, id)
    ensures Visited(fires, a, a, id, k, k, false)
  {
    hide Extends, FireOf, After;
    ExtendsRefl(a);
  }

  lemma FireDone(fires: seq<Callback>, k: nat, id: nat, a: State, b: State, c: State, busy: bool)
    requires Extends(a, b) && Extends(b, c) && a.nesting > 0 && Due(a.nodes, id) && a.nodes[id].idle == !busy
    requires b.events == a.events + [Fired(id, !busy, a.nesting)] && Deeper(b.events, c.events, b.nesting)
    requires |b.events| <= |c.events| && CallbackOf(fires, k, b.nesting, b.Memory(), c.events[|b.events|..])
    ensures Visited(fires, a, c, id, k, k + 1, busy)
  {
    hide Extends, Touched, Deeper, Busy, MemoryOf, After, CallbackOf, FireOf;
    ExtendsTrans(a, b, c);
    ExtendsPrefix(a, b);
    ExtendsPrefix(b, c);
    assert c.events[|a.events|] == b.events[|a.events|];
    FlagsPut(a.nodes, a.nextId, id, a.nodes[id]);
    FiredDeeper(a.events, b.events, c.events, id, !busy, a.nesting);
    FiredIsTouched(a.events, c.events, id, !busy, a.nesting);
    StillBusy(a.events, b.events, c.events, a.nesting, busy);
    FiredThen(fires, k, a.nesting, id, a, b, c);
  }

  lemma NothingVisited(fires: seq<Callback>, depth: nat, list: seq<nat>, m: Memory)
    ensures PassOf(fires, depth, list, 0, 0, m, [])
  {
  }

  lemma VisitedOne(fires: seq<Callback>, depth: nat, a: State, b: State, c: State, j: nat, k: nat, k': nat)
    requires j < |a.list| && a.events <= b.events <= c.events && a.list[j] in b.Memory().flags
    requires PassOf(fires, depth, a.list, j, k, a.Memory(), b.events[|a.events|..])
    requires b.Memory() == After(a.Memory(), b.events[|a.events|..])
    requires if DueIn(b.Memory(), a.list[j])
             then k' == k + 1 && FireOf(fires, k, depth, a.list[j], b.Memory(), c.events[|b.events|..])
             else k' == k && c.events == b.events
    ensures PassOf(fires, depth, a.list, j + 1, k', a.Memory(), c.events[|a.events|..])
  {
    hide FireOf, After, MemoryOf, DueIn;
    var ev, n := c.events[|a.events|..], |b.events| - |a.events|;
    assert ev[..n] == b.events[|a.events|..] && ev[n..] == c.events[|b.events|..];
    assert VisitOf(fires, depth, a.list, j + 1, k', a.Memory(), ev, n);
  }

  /** The pass that began in `a` has visited `j` nodes and fired `k`. */
  ghost predicate Going(fires: seq<Callback>, a: State, b: State, j: nat, k: nat, ret: bool) {
    && Extends(a, b) && a.nesting > 0 && j <= |a.list|
    && (forall id :: Due(a.nodes, id) && id !in a.list[j..] ==> Touched(id, b.events[|a.events|..]))
    && Deeper(a.events, b.events, a.nesting - 1)
    && (ret <==> BusyIn(a.events, b.events, a.nesting))
    && PassOf(fires, a.nesting, a.list, j, k, a.Memory(), b.events[|a.events|..])
  }

  lemma VisitedPrefix(fires: seq<Callback>, a: State, b: State, id: nat, k: nat, k': nat, busy: bool)
    requires Visited(fires, a, b, id, k, k', busy)
    ensures b.nesting == a.nesting && Suffix(a.list, b.list)
  {
  }

  /** What is left of the list after `j` nodes. */
  ghost predicate Rest(list: seq<nat>, j: nat, rest: seq<nat>) { j <= |list| && rest == list[j..] }

  lemma RestStarts(list: seq<nat>)
    ensures Rest(list, 0, list) && Suffix(list, list)
  {
  }

  lemma RestOn(list: seq<nat>, j: nat, rest: seq<nat>)
    requires Rest(list, j, rest) && rest != []
    ensures j < |list| && rest[0] == list[j] && Rest(list, j + 1, rest[1..])
  {
  }

  lemma HeadIs(rest: seq<nat>, id: nat)
    ensures Head(rest) == None <==> rest == []
    ensures Head(rest) == Some(id) ==> rest != [] && rest[0] == id
  {
  }

  lemma GoingStarts(fires: seq<Callback>, a: State)
    requires a.nesting > 0 && forall id :: Due(a.nodes, id) ==> id in a.list
    ensures Going(fires, a, a, 0, 0, false)
  {
    hide Extends, Due, MemoryOf, Busy;
    ExtendsRefl(a);
    assert a.list[0..] == a.list && a.events[|a.events|..] == [];
  }

  lemma GoingDone(fires: seq<Callback>, a: State, b: State, k: nat, ret: bool)
    requires Going(fires, a, b, |a.list|, k, ret)
    ensures Extends(a, b) && a.events <= b.events && Deeper(a.events, b.events, a.nesting - 1)
    ensures forall id :: Due(a.nodes, id) ==> Touched(id, b.events[|a.events|..])
    ensures ret <==> BusyIn(a.events, b.events, a.nesting)
    ensures PassOf(fires, a.nesting, a.list, |a.list|, k, a.Memory(), b.events[|a.events|..])
  {
    hide Due, MemoryOf, Busy, PassOf, Touched, After;
    assert a.list[|a.list|..] == [];
  }

  lemma GoingOn(fires: seq<Callback>, a: State, b: State, c: State, j: nat, k: nat, k': nat, ret: bool, busy: bool)
    requires Going(fires, a, b, j, k, ret) && j < |a.list| && Visited(fires, b, c, a.list[j], k, k', busy)
    ensures Going(fires, a, c, j + 1, k', ret || busy)
  {
    hide Extends, Due, MemoryOf, Busy, PassOf, FireOf, DueIn, After, Touched;
    ExtendsTrans(a, b, c);
    ExtendsPrefix(a, b);
    ExtendsPrefix(b, c);
    Passed(a, b, c, a.list[j..]);
    assert a.list[j..][1..] == a.list[j + 1..];
    BusySoFar(a.events, b.events, c.events, a.nesting);
    VisitedOne(fires, a.nesting, a, b, c, j, k, k');
  }

  lemma ListingOf(nodes: Heap, first: Option<nat>, list: seq<nat>, nextId: nat)
    requires Linked(nodes, first, list, nextId)
    ensures Listing(MemoryOf(nodes, nextId), list)
  {
  }

  lemma PollDone(fires: seq<Callback>, depth: nat, list: seq<nat>, k: nat, m: Memory, ev: seq<Event>)
    requires Listing(m, list) && PassOf(fires, depth + 1, list, |list|, k, m, ev)
    ensures PollOf(fires, depth, m, if depth > 0 then ev else ev + [Swept])
  {
    hide PassOf, Listing;
    var all := ev + [Swept];
    assert all[..|all| - 1] == ev;
    assert PollFires(fires, depth, list, k, m, if depth > 0 then ev else all);
  }

  /** What a poll brings about: the journal of its callbacks, nothing at its own depth or above but what it fired
      itself; every bottom half that was due at its start was touched; and `ret` tells whether it fired one
      that was not idle. */
  ghost predicate Polled(fires: seq<Callback>, a: State, b: State, ret: bool) {
    && Extends(a, b) && Deeper(a.events, b.events, a.nesting)
    && PollOf(fires, a.nesting, a.Memory(), b.events[|a.events|..])
    && (forall id :: Due(a.nodes, id) ==> Touched(id, b.events[|a.events|..]))
    && (ret <==> BusyIn(a.events, b.events, a.nesting + 1))
  }

  lemma GoingNesting(fires: seq<Callback>, a: State, b: State, k: nat, ret: bool)
    requires Going(fires, a.(nesting := a.nesting + 1), b, |a.list|, k, ret)
    ensures b.nesting == a.nesting + 1
  {
  }

  lemma PollEnds(fires: seq<Callback>, a: State, b: State, c: State, k: nat, ret: bool)
    requires Going(fires, a.(nesting := a.nesting + 1), b, |a.list|, k, ret) && Listing(a.Memory(), a.list)
    requires b.nesting == a.nesting + 1
    requires if a.nesting > 0 then c == b.(nesting := a.nesting)
             else Extends(b.(nesting := a.nesting), c) && c.events == b.events + [Swept]
    ensures Polled(fires, a, c, ret)
  {
    hide Extends, Due, PassOf, Listing, Touched, Going, PollOf, BusyIn, Deeper, MemoryOf, After;
    var a1, b0 := a.(nesting := a.nesting + 1), b.(nesting := a.nesting);
    GoingDone(fires, a1, b, k, ret);
    ExtendsDown(a1, b);
    assert a1.(nesting := a1.nesting - 1) == a && a1.Memory() == a.Memory();
    PollDone(fires, a.nesting, a.list, k, a.Memory(), b.events[|a.events|..]);
    if a.nesting == 0 {
      ExtendsTrans(a, b0, c);
      OneMore(a.events, b.events, c.events, a.nesting);
    }
  }

  lemma OneMore(a: seq<Event>, b: seq<Event>, c: seq<Event>, depth: nat)
    requires a <= b && c == b + [Swept]
    ensures c[|a|..] == b[|a|..] + [Swept]
    ensures Deeper(a, b, depth) ==> Deeper(a, c, depth)
    ensures BusyIn(a, b, depth + 1) <==> BusyIn(a, c, depth + 1)
    ensures forall id :: Touched(id, b[|a|..]) ==> Touched(id, c[|a|..])
  {
    if i :| |a| <= i < |b| && Busy(b[i], depth + 1) { assert Busy(c[i], depth + 1); }
    if i :| |a| <= i < |c| && Busy(c[i], depth + 1) { assert Busy(b[i], depth + 1); }
    forall id | Touched(id, b[|a|..]) ensures Touched(id, c[|a|..]) { TouchedLater(id, a, b, c); }
  }

  lemma FiredIsTouched(before: seq<Event>, now: seq<Event>, id: nat, idle: bool, depth: nat)
    requires before < now && now[|before|] == Fired(id, idle, depth)
    ensures Touched(id, now[|before|..])
  {
    assert Touches(now[|before|..][0], id);
  }

  lemma StillBusy(before: seq<Event>, fired: seq<Event>, now: seq<Event>, depth: nat, busy: bool)
    requires |fired| == |before| + 1 && before <= fired <= now
    requires fired[|before|].Fired? && fired[|before|].depth == depth && fired[|before|].idle == !busy
    requires Deeper(fired, now, depth)
    ensures BusyIn(before, now, depth) <==> busy
  {
    if busy { assert Busy(now[|before|], depth); }
  }

  lemma BusySoFar(start: seq<Event>, before: seq<Event>, now: seq<Event>, depth: nat)
    requires start <= before <= now
    ensures BusyIn(start, now, depth) <==>
      BusyIn(start, before, depth) || BusyIn(before, now, depth)
  {
    if i :| |start| <= i < |before| && Busy(before[i], depth) { assert now[i] == before[i]; }
    if i :| |start| <= i < |now| && Busy(now[i], depth) {
      if i < |before| { assert before[i] == now[i]; }
    }
  }

  lemma DueInList(nodes: Heap, first: Option<nat>, list: seq<nat>, nextId: nat)
    requires Linked(nodes, first, list, nextId)
    ensures first == Head(list) && forall id :: Due(nodes, id) ==> id in list
  {
  }

  lemma GoodAnyway(s: State, n: nat)
    requires Good(s)
    ensures Good(s.(nesting := n))
  {
  }

  /** The head of the rest has been dealt with. */
  lemma Passed(start: State, before: State, now: State, rest: seq<nat>)
    requires Extends(start, before) && Extends(start, now) && before.events <= now.events && rest != []
    requires Due(before.nodes, rest[0]) ==> Touched(rest[0], now.events[|before.events|..])
    requires forall id :: Due(start.nodes, id) && id !in rest ==> Touched(id, before.events[|start.events|..])
    ensures forall id :: Due(start.nodes, id) && id !in rest[1..] ==> Touched(id, now.events[|start.events|..])
  {
    hide Due;
    forall id | Due(start.nodes, id) && id !in rest[1..] ensures Touched(id, now.events[|start.events|..]) {
      TouchedLater(id, start.events, before.events, now.events);
      if id in rest {
        assert id == rest[0];
      }
    }
  }

  predicate Busy(e: Event, depth: nat) { e.Fired? && !e.idle && e.depth == depth }

  /** Between `a` and `b`, a poll at that depth fired a bottom half that was not idle. */
  ghost predicate BusyIn(a: seq<Event>, b: seq<Event>, depth: nat) {
    exists i :: |a| <= i < |b| && Busy(b[i], depth)
  }

  lemma ExtendsPrefix(a: State, b: State)
    requires Extends(a, b)
    ensures a.events <= b.events && a.nesting == b.nesting && (a.nesting > 0 ==> Suffix(a.list, b.list))
    ensures b.Memory() == After(a.Memory(), b.events[|a.events|..])
  {
  }

  lemma IdBelow(nodes: Heap, first: Option<nat>, list: seq<nat>, nextId: nat, id: nat)
    requires Linked(nodes, first, list, nextId) && id in nodes
    ensures id < nextId
  {
  }

  // ---------------------------------------------------------------------------------------------
  // Callbacks that do nothing

  /** What such a pass fires: only bottom halves that were due at its start, with their flags of then. */
  ghost predicate Quietly(depth: nat, visited: seq<nat>, m: Memory, ev: seq<Event>) {
    && (forall i :: 0 <= i < |ev| ==>
          && ev[i].Fired? && ev[i].depth == depth && ev[i].id in visited && DueIn(m, ev[i].id)
          && ev[i].idle == m.flags[ev[i].id].idle)
    && (forall x :: x in visited && DueIn(m, x) ==> Touched(x, ev))
    && (forall x :: x !in visited && x in m.flags ==> x in After(m, ev).flags && After(m, ev).flags[x] == m.flags[x])
    && (forall x :: x in After(m, ev).flags ==> x in m.flags)
  }

  lemma {:induction false} QuietPass(depth: nat, list: seq<nat>, j: nat, k: nat, m: Memory, ev: seq<Event>)
    requires j <= |list| && (forall a, b :: 0 <= a < b < |list| ==> list[a] > list[b])
    requires PassOf([], depth, list, j, k, m, ev)
    ensures Quietly(depth, list[..j], m, ev)
  {
    if j > 0 {
      var n: nat :| VisitOf([], depth, list, j, k, m, ev, n);
      QuietVisit(depth, list, j, k, m, ev, n);
      if DueIn(After(m, ev[..n]), list[j - 1]) {
        QuietPass(depth, list, j - 1, k - 1, m, ev[..n]);
        hide Quietly;
        QuietFire(depth, list[..j - 1], list[j - 1], m, ev[..n], ev[n]);
      } else {
        QuietPass(depth, list, j - 1, k, m, ev);
        hide Quietly;
        QuietSkip(depth, list[..j - 1], list[j - 1], m, ev);
      }
    }
  }

  lemma QuietVisit(depth: nat, list: seq<nat>, j: nat, k: nat, m: Memory, ev: seq<Event>, n: nat)
    requires 0 < j <= |list| && (forall a, b :: 0 <= a < b < |list| ==> list[a] > list[b])
    requires VisitOf([], depth, list, j, k, m, ev, n)
    ensures n <= |ev| && list[..j] == list[..j - 1] + [list[j - 1]] && list[j - 1] !in list[..j - 1]
    ensures if DueIn(After(m, ev[..n]), list[j - 1]) then
              && k > 0 && PassOf([], depth, list, j - 1, k - 1, m, ev[..n]) && n + 1 == |ev| && ev == ev[..n] + [ev[n]]
              && ev[n] == Fired(list[j - 1], After(m, ev[..n]).flags[list[j - 1]].idle, depth)
            else ev[..n] == ev && PassOf([], depth, list, j - 1, k, m, ev)
  {
    hide PassOf, After;
  }

  lemma QuietFire(depth: nat, visited: seq<nat>, id: nat, m: Memory, ev: seq<Event>, e: Event)
    requires Quietly(depth, visited, m, ev) && id !in visited && DueIn(After(m, ev), id)
    requires e == Fired(id, After(m, ev).flags[id].idle, depth)
    ensures Quietly(depth, visited + [id], m, ev + [e])
  {
    hide After;
    AfterAppend(m, ev, [e]);
    OneEvent(After(m, ev), e);
    var ev' := ev + [e];
    forall x | x in visited + [id] && DueIn(m, x) ensures Touched(x, ev') {
      if x == id {
        assert Touches(ev'[|ev|], x);
      } else {
        var i :| 0 <= i < |ev| && Touches(ev[i], x);
        assert ev'[i] == ev[i];
      }
    }
  }

  lemma QuietSkip(depth: nat, visited: seq<nat>, id: nat, m: Memory, ev: seq<Event>)
    requires Quietly(depth, visited, m, ev) && id !in visited && !DueIn(After(m, ev), id)
    ensures Quietly(depth, visited + [id], m, ev)
  {
    hide After;
  }

  lemma QuietPoll(depth: nat, m: Memory, ev: seq<Event>, id: nat)
    requires PollOf([], depth, m, ev) && DueIn(m, id) && forall x :: DueIn(m, x) ==> x == id
    ensures exists i :: 0 <= i < |ev| && ev[i] == Fired(id, m.flags[id].idle, depth + 1)
    ensures forall i :: 0 <= i < |ev| && ev[i].Fired? ==> ev[i] == Fired(id, m.flags[id].idle, depth + 1)
  {
    hide PassOf, Quietly;
    var list, k :| PollFires([], depth, list, k, m, ev);
    var fired := if depth > 0 then ev else ev[..|ev| - 1];
    assert list[..|list|] == list;
    QuietPass(depth + 1, list, |list|, k, m, fired);
    OnlyOne(depth + 1, list, m, fired, id);
    var i :| 0 <= i < |fired| && fired[i] == Fired(id, m.flags[id].idle, depth + 1);
    assert ev[i] == fired[i];
    forall i | 0 <= i < |ev| && ev[i].Fired? ensures ev[i] == Fired(id, m.flags[id].idle, depth + 1) {
      assert i < |fired| && ev[i] == fired[i];
    }
  }

  lemma OnlyOne(depth: nat, list: seq<nat>, m: Memory, ev: seq<Event>, id: nat)
    requires Quietly(depth, list, m, ev) && id in list && DueIn(m, id) && forall x :: DueIn(m, x) ==> x == id
    ensures exists i :: 0 <= i < |ev| && ev[i] == Fired(id, m.flags[id].idle, depth)
    ensures forall i :: 0 <= i < |ev| ==> ev[i] == Fired(id, m.flags[id].idle, depth)
  {
    hide After;
    assert Touched(id, ev);
    var i :| 0 <= i < |ev| && Touches(ev[i], id);
    assert ev[i] == Fired(id, m.flags[id].idle, depth);
  }

  /** If nothing is due, scheduling one bottom half makes the next poll report progress, and scheduling it as
      idle does not. */
  method ScheduleAndPoll(c: Context, act: Act) returns (ret: bool)
    requires c.Valid() && (act.Schedule? || act.ScheduleIdle?) && act.id in c.nodes
    requires !c.nodes[act.id].scheduled && !c.nodes[act.id].deleted && forall x :: !Due(c.nodes, x)
    modifies c
    ensures ret <==> act.Schedule?
  {
    hide Linked, Good, PollOf;
    ghost var m := c.Now().Memory();
    ghost var e0 := c.events;
    forall x ensures !DueIn(m, x) { assert !Due(c.nodes, x); }
    c.Do(act);
    ghost var idle := act.ScheduleIdle?;
    assert c.events[|e0|..] == [Scheduled(act.id, idle)];
    OneEvent(m, Scheduled(act.id, idle));
    ghost var m1, e1 := c.Now().Memory(), c.events;
    OnlyDue(m, m1, act.id, idle);
    ret := c.Poll([]);
    ghost var ev := c.events[|e1|..];
    assert c.nesting == old(c.nesting);
    QuietPoll(c.nesting, m1, ev, act.id);
    ReportOf(e1, c.events, act.id, idle, c.nesting + 1);
  }

  lemma OnlyDue(m: Memory, m1: Memory, id: nat, idle: bool)
    requires id in m.flags && !m.flags[id].scheduled && !m.flags[id].deleted && forall x :: !DueIn(m, x)
    requires m1 == Effect(m, Scheduled(id, idle))
    ensures DueIn(m1, id) && m1.flags[id].idle == idle && forall x :: DueIn(m1, x) ==> x == id
  {
    forall x | DueIn(m1, x) && x != id ensures false { assert DueIn(m, x); }
  }

  lemma ReportOf(a: seq<Event>, b: seq<Event>, id: nat, idle: bool, depth: nat)
    requires |a| <= |b|
    requires exists i :: 0 <= i < |b[|a|..]| && b[|a|..][i] == Fired(id, idle, depth)
    requires forall i :: 0 <= i < |b[|a|..]| && b[|a|..][i].Fired? ==> b[|a|..][i] == Fired(id, idle, depth)
    ensures BusyIn(a, b, depth) <==> !idle
  {
    var i :| 0 <= i < |b[|a|..]| && b[|a|..][i] == Fired(id, idle, depth);
    assert b[|a| + i] == Fired(id, idle, depth);
    if !idle { assert Busy(b[|a| + i], depth); }
    forall j | |a| <= j < |b| && Busy(b[j], depth) ensures !idle { assert b[|a|..][j - |a|] == b[j]; }
  }
}
