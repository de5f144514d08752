/** Live migration of guest RAM: the sender (`ram_save_block`, `ram_save_live`), its byte stream, and
    the receiver (`ram_load`, `host_from_stream_offset`).

    A RAM block is an id string and a number of target pages; offsets are kept as page numbers and
    become byte offsets only on the wire. The guest keeps writing while the sender runs. A write either
    sets the page's dirty bit at once or lands in the hypervisor's log, from where it reaches the dirty
    bitmap at the next `memory_global_sync_dirty_bitmap`. */
module RamMigration {
  import opened Wire

  const PAGE_SIZE: nat := 4096

  const COMPRESS: nat := 0x02
  const MEM_SIZE: nat := 0x04
  const PAGE: nat := 0x08
  const EOS: nat := 0x10
  const CONTINUE: nat := 0x20

  type Page = p: seq<byte> | |p| == PAGE_SIZE witness seq(PAGE_SIZE, _ => 0)

  datatype Block = Block(id: seq<byte>, pages: nat) {
    function Length(): nat { pages * PAGE_SIZE }
  }

  datatype Pos = Pos(b: nat, p: nat)

  /** What the source demands of a RAM list: it is not empty, every block has at least one page and an
      id that fits the one-byte length field, and ids are distinct. */
  ghost predicate GoodLayout(blocks: seq<Block>) {
    && blocks != []
    && (forall i :: 0 <= i < |blocks| ==> blocks[i].pages > 0 && |blocks[i].id| < 256)
    && (forall i, j :: 0 <= i < j < |blocks| ==> blocks[i].id != blocks[j].id)
    && TotalLength(blocks) < TWO64
  }

  /** `ram_bytes_total`. */
  function TotalLength(blocks: seq<Block>): (n: nat)
  {
    if blocks == [] then 0 else blocks[0].Length() + TotalLength(blocks[1..])
  }

  predicate InRange(blocks: seq<Block>, q: Pos) {
    q.b < |blocks| && q.p < blocks[q.b].pages
  }

  function Fill(b: byte): Page {
    seq(PAGE_SIZE, _ => b)
  }

  /** The first block with the given id, as the list walk of the receiver finds it. */
  function Find(blocks: seq<Block>, id: seq<byte>): (r: Option<nat>)
    ensures r.Some? ==> r.value < |blocks| && blocks[r.value].id == id
    ensures r.Some? ==> forall i :: 0 <= i < r.value ==> blocks[i].id != id
    ensures r.None? ==> forall i :: 0 <= i < |blocks| ==> blocks[i].id != id
  {
    if blocks == [] then None
    else if blocks[0].id == id then Some(0)
    else match Find(blocks[1..], id)
      case None => assert forall i :: 1 <= i < |blocks| ==> blocks[i] == blocks[1..][i - 1]; None
      case Some(i) => Some(i + 1)
  }

  // ---------------------------------------------------------------------------------------------
  // Wire format

  datatype Record =
    | MemSizeRecord(blocks: seq<Block>)
    | FillRecord(cont: bool, id: seq<byte>, page: nat, fill: byte)
    | PageRecord(cont: bool, id: seq<byte>, page: nat, data: Page)
    | EosRecord

  function Header(r: Record): nat {
    match r
    case MemSizeRecord(bs) => TotalLength(bs) + MEM_SIZE
    case FillRecord(cont, _, p, _) => p * PAGE_SIZE + (if cont then CONTINUE else 0) + COMPRESS
    case PageRecord(cont, _, p, _) => p * PAGE_SIZE + (if cont then CONTINUE else 0) + PAGE
    case EosRecord => EOS
  }

  ghost predicate GoodRecord(r: Record) {
    && Header(r) < TWO64
    && match r
       case MemSizeRecord(bs) =>
         forall i :: 0 <= i < |bs| ==> |bs[i].id| < 256 && bs[i].pages > 0
       case FillRecord(cont, id, _, _) => cont || |id| < 256
       case PageRecord(cont, id, _, _) => cont || |id| < 256
       case EosRecord => true
  }

  function EncodeBlock(b: Block): seq<byte> {
    EncodeId(b.id) + Be64(b.Length())
  }

  function EncodeBlocks(bs: seq<Block>): seq<byte> {
    if bs == [] then [] else EncodeBlock(bs[0]) + EncodeBlocks(bs[1..])
  }

  function Payload(r: Record): seq<byte> {
    match r
    case MemSizeRecord(bs) => EncodeBlocks(bs)
    case FillRecord(cont, id, _, b) => (if cont then [] else EncodeId(id)) + [b]
    case PageRecord(cont, id, _, data) => (if cont then [] else EncodeId(id)) + data
    case EosRecord => []
  }

  function Encode(r: Record): seq<byte> {
    Be64(Header(r)) + Payload(r)
  }

  function EncodeAll(rs: seq<Record>): seq<byte> {
    if rs == [] then [] else EncodeAll(rs[..|rs| - 1]) + Encode(rs[|rs| - 1])
  }

  /** One section of the stream: what a single call of `ram_save_live` emits. */
  ghost predicate Section(rs: seq<Record>) {
    && rs != []
    && rs[|rs| - 1] == EosRecord
    && (forall i :: 0 <= i < |rs| - 1 ==> rs[i] != EosRecord)
    && (forall i :: 0 <= i < |rs| ==> GoodRecord(rs[i]))
  }

  /** A prefix `a + b` at `pos` is `a` at `pos` followed by `b`. */
  lemma SplitAt(a: seq<byte>, b: seq<byte>, f: seq<byte>, pos: nat)
    requires pos <= |f| && a + b <= f[pos..]
    ensures pos + |a| + |b| <= |f|
    ensures a <= f[pos..] && b <= f[pos + |a|..]
  {
    assert f[pos..][..|a| + |b|] == a + b;
    assert f[pos..][..|a|] == (a + b)[..|a|] == a;
    assert f[pos + |a|..][..|b|] == (a + b)[|a|..] == b;
  }

  lemma {:induction false} EncodePrefix(rs: seq<Record>, k: nat)
    requires k <= |rs|
    ensures |EncodeAll(rs[..k])| <= |EncodeAll(rs)|
    ensures EncodeAll(rs)[..|EncodeAll(rs[..k])|] == EncodeAll(rs[..k])
    decreases |rs|
  {
    hide Be64;
    if k == |rs| {
      assert rs[..k] == rs;
    } else {
      var front := rs[..|rs| - 1];
      EncodePrefix(front, k);
      assert front[..k] == rs[..k];
    }
  }

  /** Record `k` of a section sits in the byte stream right after the first `k` records. */
  lemma RecordAt(rs: seq<Record>, k: nat, f: seq<byte>, pos: nat)
    requires k < |rs| && f == EncodeAll(rs) && pos == |EncodeAll(rs[..k])|
    ensures pos + |Encode(rs[k])| == |EncodeAll(rs[..k + 1])| <= |f|
    ensures Encode(rs[k]) <= f[pos..]
  {
    hide Be64;
    EncodePrefix(rs, k + 1);
    assert rs[..k + 1][..k] == rs[..k];
    assert EncodeAll(rs[..k + 1]) == EncodeAll(rs[..k]) + Encode(rs[k]);
    hide Encode, EncodeAll;
    assert f[0..] == f;
    SplitAt(EncodeAll(rs[..k]), Encode(rs[k]), f, 0);
  }

  lemma {:induction false} TotalIsPageMultiple(bs: seq<Block>)
    ensures TotalLength(bs) % PAGE_SIZE == 0
  {
    if bs != [] {
      TotalIsPageMultiple(bs[1..]);
    }
  }

  ghost predicate HeaderFlags(r: Record, flags: nat, page: nat) {
    && HasFlag(flags, MEM_SIZE) == r.MemSizeRecord?
    && HasFlag(flags, COMPRESS) == r.FillRecord?
    && HasFlag(flags, PAGE) == r.PageRecord?
    && HasFlag(flags, EOS) == r.EosRecord?
    && (r.FillRecord? || r.PageRecord? ==> HasFlag(flags, CONTINUE) == r.cont && page == r.page)
    && (r.MemSizeRecord? ==> page * PAGE_SIZE == TotalLength(r.blocks))
  }

  lemma AlignedParts(p: nat, flags: nat)
    requires flags < PAGE_SIZE
    ensures (p * PAGE_SIZE + flags) % PAGE_SIZE == flags && (p * PAGE_SIZE + flags) / PAGE_SIZE == p
  {
  }

  /** Flags occupy the low bits of a header, below the page-aligned address. */
  lemma HeaderParts(r: Record)
    ensures HeaderFlags(r, Header(r) % PAGE_SIZE, Header(r) / PAGE_SIZE)
  {
    match r
    case MemSizeRecord(bs) =>
      TotalIsPageMultiple(bs);
      AlignedParts(TotalLength(bs) / PAGE_SIZE, MEM_SIZE);
    case FillRecord(cont, _, p, _) =>
      AlignedParts(p, (if cont then CONTINUE else 0) + COMPRESS);
    case PageRecord(cont, _, p, _) =>
      AlignedParts(p, (if cont then CONTINUE else 0) + PAGE);
    case EosRecord =>
  }

  // ---------------------------------------------------------------------------------------------
  // What the records mean to a receiver

  datatype Error = Einval | IoError | WriteThroughNull

  datatype Outcome<+T> = Done(value: T) | Failed(error: Error)

  /** Receiver state: the function-static `block` and the RAM contents. */
  datatype Dest = Dest(block: Option<nat>, ram: map<Pos, Page>)

  /** The receiver has a block with this id, of the same length. */
  predicate AcceptsBlock(layout: seq<Block>, b: Block) {
    Find(layout, b.id).Some? && layout[Find(layout, b.id).value].pages == b.pages
  }

  ghost predicate Accepts(layout: seq<Block>, bs: seq<Block>) {
    forall i :: 0 <= i < |bs| ==> AcceptsBlock(layout, bs[i])
  }

  /** The first block named like `b` is equal to it. */
  ghost predicate SameBlockHere(layout: seq<Block>, b: Block) {
    exists j :: 0 <= j < |layout| && layout[j] == b && forall k :: 0 <= k < j ==> layout[k].id != b.id
  }

  /** Acceptance, said of the lists. */
  lemma AcceptsMeans(layout: seq<Block>, bs: seq<Block>)
    ensures Accepts(layout, bs) <==> forall i :: 0 <= i < |bs| ==> SameBlockHere(layout, bs[i])
  {
    forall i | 0 <= i < |bs|
      ensures AcceptsBlock(layout, bs[i]) <==> SameBlockHere(layout, bs[i])
    {
      if AcceptsBlock(layout, bs[i]) { assert layout[Find(layout, bs[i].id).value] == bs[i]; }
    }
  }

  function Target(layout: seq<Block>, d: Dest, cont: bool, id: seq<byte>): Option<nat> {
    if cont then d.block else Find(layout, id)
  }

  ghost function Apply(layout: seq<Block>, d: Dest, r: Record): Outcome<Dest> {
    match r
    case MemSizeRecord(bs) => if Accepts(layout, bs) then Done(d) else Failed(Einval)
    case FillRecord(cont, id, p, b) =>
      (match Target(layout, d, cont, id)
       case None => Failed(Einval)
       case Some(t) => Done(Dest(Some(t), d.ram[Pos(t, p) := Fill(b)])))
    case PageRecord(cont, id, p, data) =>
      (match Target(layout, d, cont, id)
       case None => Failed(WriteThroughNull)
       case Some(t) => Done(Dest(Some(t), d.ram[Pos(t, p) := data])))
    case EosRecord => Done(d)
  }

  ghost function ApplyAll(layout: seq<Block>, d: Dest, rs: seq<Record>): Outcome<Dest> {
    if rs == [] then Done(d)
    else match ApplyAll(layout, d, rs[..|rs| - 1])
      case Failed(e) => Failed(e)
      case Done(d') => Apply(layout, d', rs[|rs| - 1])
  }

  lemma {:induction false} FailureIsFinal(layout: seq<Block>, d: Dest, rs: seq<Record>, k: nat)
    requires k <= |rs| && ApplyAll(layout, d, rs[..k]).Failed?
    ensures ApplyAll(layout, d, rs) == ApplyAll(layout, d, rs[..k])
    decreases |rs|
  {
    if k == |rs| {
      assert rs[..k] == rs;
    } else {
      assert rs[..|rs| - 1][..k] == rs[..k];
      FailureIsFinal(layout, d, rs[..|rs| - 1], k);
    }
  }

  lemma ApplyOneMore(layout: seq<Block>, d: Dest, rs: seq<Record>, k: nat)
    requires k < |rs|
    ensures ApplyAll(layout, d, rs[..k + 1])
            == match ApplyAll(layout, d, rs[..k]) case Failed(e) => Failed(e) case Done(d') => Apply(layout, d', rs[k])
  {
    assert rs[..k + 1][..k] == rs[..k];
  }

  // ---------------------------------------------------------------------------------------------
  // Reading the encodings back

  lemma IdAt(id: seq<byte>, f: seq<byte>, pos: nat)
    requires |id| < 256 && pos <= |f| && EncodeId(id) <= f[pos..]
    ensures pos + 1 + |id| <= |f|
    ensures f[pos] as nat == |id| && f[pos + 1..pos + 1 + |id|] == id
  {
    var e := EncodeId(id);
    assert f[pos..][..|e|] == f[pos..pos + |e|] == e;
    assert f[pos] == f[pos..pos + |e|][0];
    assert f[pos + 1..pos + 1 + |id|] == f[pos..pos + |e|][1..];
  }

  lemma WordAt(n: nat, f: seq<byte>, pos: nat)
    requires n < TWO64 && pos <= |f| && Be64(n) <= f[pos..]
    ensures pos + 8 <= |f| && FromBigEndian(f[pos..pos + 8]) == n
  {
    hide BigEndian;
    assert f[pos..pos + 8] == f[pos..][..8] == Be64(n);
    Be64RoundTrip(n);
  }

  ghost predicate GoodBlock(b: Block) {
    |b.id| < 256 && b.pages > 0 && b.Length() < TWO64
  }

  /** `f` holds the encoded list `bs`, of total length `bytes`, from `pos` on. */
  ghost predicate BlocksAt(bs: seq<Block>, bytes: nat, f: seq<byte>, pos: nat) {
    && (forall i :: 0 <= i < |bs| ==> |bs[i].id| < 256 && bs[i].pages > 0)
    && bytes == TotalLength(bs) < TWO64
    && pos <= |f|
    && EncodeBlocks(bs) <= f[pos..]
  }

  lemma EmptyTotal(bs: seq<Block>)
    requires TotalLength(bs) == 0 && forall i :: 0 <= i < |bs| ==> bs[i].pages > 0
    ensures bs == [] && EncodeBlocks(bs) == []
  {
  }

  lemma FirstBlockAt(bs: seq<Block>, bytes: nat, f: seq<byte>, pos: nat)
    requires BlocksAt(bs, bytes, f, pos) && bytes > 0
    ensures bs != [] && GoodBlock(bs[0]) && EncodeBlock(bs[0]) <= f[pos..]
    ensures bs[0].Length() <= bytes
    ensures BlocksAt(bs[1..], bytes - bs[0].Length(), f, pos + |EncodeBlock(bs[0])|)
    ensures |EncodeBlocks(bs)| == |EncodeBlock(bs[0])| + |EncodeBlocks(bs[1..])|
  {
    hide Be64;
    SplitAt(EncodeBlock(bs[0]), EncodeBlocks(bs[1..]), f, pos);
  }

  // ---------------------------------------------------------------------------------------------
  // Receiver

  class Destination {
    const blocks: seq<Block>
    var block: Option<nat>
    var ram: map<Pos, Page>

    constructor (blocks: seq<Block>, ram: map<Pos, Page>, block: Option<nat>)
      ensures this.blocks == blocks && State() == Dest(block, ram)
    {
      this.blocks, this.ram, this.block := blocks, ram, block;
    }

    ghost function State(): Dest
      reads this
    {
      Dest(block, ram)
    }

    method Lookup(id: seq<byte>) returns (r: Option<nat>)
      ensures r == Find(blocks, id)
    {
      var i := 0;
      while i < |blocks|
        invariant 0 <= i <= |blocks|
        invariant forall j :: 0 <= j < i ==> blocks[j].id != id
      {
        if blocks[i].id == id {
          return Some(i);
        }
        i := i + 1;
      }
      return None;
    }

    method ReadId(f: seq<byte>, start: nat, ghost id: seq<byte>) returns (r: Option<seq<byte>>, pos: nat)
      requires start <= |f|
      ensures start <= pos <= |f| && (r.Some? ==> start < pos)
      ensures |id| < 256 && EncodeId(id) <= f[start..] ==> r == Some(id) && pos == start + |EncodeId(id)|
    {
      if |id| < 256 && EncodeId(id) <= f[start..] {
        IdAt(id, f, start);
      }
      if |f| < start + 1 || |f| < start + 1 + f[start] as nat {
        return None, start;
      }
      pos := start + 1 + f[start] as nat;
      r := Some(f[start + 1..pos]);
    }

    /** One entry of the block list: the sender's block must exist here with the same length. */
    method CheckBlock(f: seq<byte>, start: nat, ghost b: Block)
        returns (err: Option<Error>, length: nat, pos: nat)
      requires start <= |f|
      ensures start <= pos <= |f| && (err.None? ==> start < pos)
      ensures GoodBlock(b) && EncodeBlock(b) <= f[start..] ==>
                if AcceptsBlock(blocks, b) then err == None && length == b.Length() && pos == start + |EncodeBlock(b)|
                else err == Some(Einval)
    {
      ghost var good := GoodBlock(b) && EncodeBlock(b) <= f[start..];
      if good {
        SplitAt(EncodeId(b.id), Be64(b.Length()), f, start);
      }
      var id;
      id, pos := ReadId(f, start, b.id);
      if good {
        WordAt(b.Length(), f, pos);
      }
      if id.None? || |f| < pos + 8 {
        return Some(IoError), 0, pos;
      }
      length := FromBigEndian(f[pos..pos + 8]);
      pos := pos + 8;
      var at := Lookup(id.value);
      if at.None? || blocks[at.value].Length() != length {
        return Some(Einval), length, pos;
      }
      return None, length, pos;
    }

    /** The block list that follows a MEM_SIZE header. */
    method SyncBlockList(f: seq<byte>, start: nat, bytes: nat, ghost bs: seq<Block>)
        returns (err: Option<Error>, pos: nat)
      requires start <= |f| && bytes < TWO64
      ensures start <= pos <= |f|
      ensures BlocksAt(bs, bytes, f, start) ==>
                if Accepts(blocks, bs) then err == None && pos == start + |EncodeBlocks(bs)|
                else err == Some(Einval)
    {
      pos := start;
      var total: nat := bytes;
      hide EncodeBlocks, TotalLength, EncodeBlock, AcceptsBlock;
      ghost var good := BlocksAt(bs, bytes, f, start);
      ghost var rest := bs;
      while total != 0
        invariant start <= pos <= |f| && total < TWO64
        invariant good ==>
                    && BlocksAt(rest, total, f, pos)
                    && pos + |EncodeBlocks(rest)| == start + |EncodeBlocks(bs)|
                    && Accepts(blocks, rest) == Accepts(blocks, bs)
        decreases |f| - pos
      {
        ghost var first := if good && rest != [] then rest[0] else Block([], 0);
        if good {
          FirstBlockAt(rest, total, f, pos);
          AcceptsFirst(blocks, rest);
        }
        var e, length;
        e, length, pos := CheckBlock(f, pos, first);
        if e.Some? {
          return e, pos;
        }
        total := (total - length) % TWO64;
        if good {
          rest := rest[1..];
        }
      }
      if good {
        EmptyTotal(rest);
      }
      err := None;
    }

    /** `host_from_stream_offset`: the block the record addresses, remembered in `block`. */
    method HostFromStreamOffset(f: seq<byte>, start: nat, flags: nat, ghost id: seq<byte>)
        returns (err: Option<Error>, host: Option<nat>, pos: nat)
      requires start <= |f|
      modifies this
      ensures ram == old(ram) && start <= pos <= |f|
      ensures HasFlag(flags, CONTINUE) ==>
                err == None && pos == start && block == old(block) && host == old(block)
      ensures !HasFlag(flags, CONTINUE) && |id| < 256 && EncodeId(id) <= f[start..] ==>
                err == None && pos == start + |EncodeId(id)| && host == block == Find(blocks, id)
    {
      if HasFlag(flags, CONTINUE) {
        return None, block, start;
      }
      var r;
      r, pos := ReadId(f, start, id);
      if r.None? {
        return Some(IoError), None, pos;
      }
      block := Lookup(r.value);
      return None, block, pos;
    }

    method LoadFill(f: seq<byte>, start: nat, flags: nat, page: nat, ghost r: Record)
        returns (err: Option<Error>, pos: nat)
      requires start <= |f|
      modifies this
      ensures start <= pos <= |f|
      ensures r.FillRecord? && GoodRecord(r) && HeaderFlags(r, flags, page) && Payload(r) <= f[start..] ==>
                match Apply(blocks, old(State()), r)
                case Done(d) => err == None && State() == d && pos == start + |Payload(r)|
                case Failed(e) => err == Some(e)
    {
      ghost var id := if r.FillRecord? then r.id else [];
      if r.FillRecord? && GoodRecord(r) && HeaderFlags(r, flags, page) && Payload(r) <= f[start..] {
        SplitAt(if r.cont then [] else EncodeId(r.id), [r.fill], f, start);
      }
      var host;
      err, host, pos := HostFromStreamOffset(f, start, flags, id);
      if err.Some? {
        return err, pos;
      }
      if host.None? {
        return Some(Einval), pos;
      }
      if |f| < pos + 1 {
        return Some(IoError), pos;
      }
      assert f[pos] == f[pos..][0];
      ram := ram[Pos(host.value, page) := Fill(f[pos])];
      pos := pos + 1;
    }

    method LoadPage(f: seq<byte>, start: nat, flags: nat, page: nat, ghost r: Record)
        returns (err: Option<Error>, pos: nat)
      requires start <= |f|
      modifies this
      ensures start <= pos <= |f|
      ensures r.PageRecord? && GoodRecord(r) && HeaderFlags(r, flags, page) && Payload(r) <= f[start..] ==>
                match Apply(blocks, old(State()), r)
                case Done(d) => err == None && State() == d && pos == start + |Payload(r)|
                case Failed(e) => err == Some(e)
    {
      ghost var id := if r.PageRecord? then r.id else [];
      if r.PageRecord? && GoodRecord(r) && HeaderFlags(r, flags, page) && Payload(r) <= f[start..] {
        SplitAt(if r.cont then [] else EncodeId(r.id), r.data, f, start);
      }
      var host;
      err, host, pos := HostFromStreamOffset(f, start, flags, id);
      if err.Some? {
        return err, pos;
      }
      if host.None? {
        return Some(WriteThroughNull), pos;
      }
      if |f| < pos + PAGE_SIZE {
        return Some(IoError), pos;
      }
      var data: Page := f[pos..pos + PAGE_SIZE];
      assert data == f[pos..][..PAGE_SIZE];
      assert r.PageRecord? && r.data <= f[pos..] ==> data == r.data;
      ram := ram[Pos(host.value, page) := data];
      pos := pos + PAGE_SIZE;
    }

    /** One turn of the loop of `ram_load`. */
    method LoadRecord(f: seq<byte>, start: nat, ghost r: Record)
        returns (err: Option<Error>, eos: bool, pos: nat)
      requires start <= |f|
      modifies this
      ensures start <= pos <= |f| && (err.None? ==> start < pos)
      ensures GoodRecord(r) && Encode(r) <= f[start..] ==>
                && (match Apply(blocks, old(State()), r)
                    case Done(d) => err == None && State() == d && pos == start + |Encode(r)|
                    case Failed(e) => err == Some(e))
                && (err.None? ==> eos == r.EosRecord?)
                && (r.MemSizeRecord? ==> State() == old(State()))
    {
      hide FromBigEndian, BigEndian, EncodeBlocks, TotalLength;
      ghost var good := GoodRecord(r) && Encode(r) <= f[start..];
      if good {
        SplitAt(Be64(Header(r)), Payload(r), f, start);
        WordAt(Header(r), f, start);
        HeaderParts(r);
      }
      pos, eos := start, false;
      if |f| < pos + 8 {
        return Some(IoError), eos, pos;
      }
      var addr := FromBigEndian(f[pos..pos + 8]);
      pos := pos + 8;
      var flags := addr % PAGE_SIZE;
      var page := addr / PAGE_SIZE;
      eos := HasFlag(flags, EOS);
      err := None;
      if HasFlag(flags, MEM_SIZE) {
        err, pos := SyncBlockList(f, pos, page * PAGE_SIZE % TWO64, if r.MemSizeRecord? then r.blocks else []);
        if err.Some? {
          return err, eos, pos;
        }
      }
      if HasFlag(flags, COMPRESS) {
        err, pos := LoadFill(f, pos, flags, page, r);
      } else if HasFlag(flags, PAGE) {
        err, pos := LoadPage(f, pos, flags, page, r);
      }
    }

    /** `ram_load`. When the bytes are the encoding of a section, the new state is what its records
        mean; `recs` is that section. Any other bytes are read the way the source reads them. */
    method Load(f: seq<byte>, version: int, ghost recs: seq<Record>) returns (err: Option<Error>)
      modifies this
      ensures version != 4 ==> err == Some(Einval) && State() == old(State())
      ensures version == 4 && Section(recs) && f == EncodeAll(recs) ==>
                match ApplyAll(blocks, old(State()), recs)
                case Done(d) => err == None && State() == d
                case Failed(e) => err == Some(e)
      ensures version == 4 && Section(recs) && f == EncodeAll(recs) && Refused(blocks, recs) ==> State() == old(State())
    {
      hide Be64, Apply, Encode, GoodRecord, EncodeAll, ApplyAll, Accepts;
      if version != 4 {
        return Some(Einval);
      }
      ghost var good := Section(recs) && f == EncodeAll(recs);
      ghost var d0 := State();
      StartOfSection(blocks, d0, recs);
      var pos := 0;
      ghost var k := 0;
      while true
        invariant pos <= |f|
        invariant good ==> k < |recs| && pos == |EncodeAll(recs[..k])|
        invariant good ==> ApplyAll(blocks, d0, recs[..k]) == Done(State())
        invariant good && Refused(blocks, recs) ==> k == 0 && State() == d0
        decreases |f| - pos
      {
        ghost var r := if good then recs[k] else EosRecord;
        if good {
          RecordAt(recs, k, f, pos);
          ApplyOneMore(blocks, d0, recs, k);
          FailureOfPrefix(blocks, d0, recs, k);
          if Refused(blocks, recs) { FirstRefused(blocks, d0, recs); }
        }
        var eos;
        err, eos, pos := LoadRecord(f, pos, r);
        if err.Some? {
          return err;
        }
        if eos {
          if good {
            assert recs[..k + 1] == recs;
          }
          return None;
        }
        k := k + 1;
      }
    }
  }

  lemma AcceptsFirst(layout: seq<Block>, bs: seq<Block>)
    requires bs != []
    ensures Accepts(layout, bs) == (AcceptsBlock(layout, bs[0]) && Accepts(layout, bs[1..]))
  {
    assert forall i :: 0 <= i < |bs| - 1 ==> bs[1..][i] == bs[i + 1];
    if AcceptsBlock(layout, bs[0]) && Accepts(layout, bs[1..]) {
      forall i | 0 <= i < |bs|
        ensures AcceptsBlock(layout, bs[i])
      {
        assert i > 0 ==> bs[i] == bs[1..][i - 1];
      }
    }
  }

  /** The section begins with a block list that does not match. */
  ghost predicate Refused(layout: seq<Block>, rs: seq<Record>) {
    rs != [] && rs[0].MemSizeRecord? && !Accepts(layout, rs[0].blocks)
  }

  lemma FirstRefused(layout: seq<Block>, d: Dest, rs: seq<Record>)
    requires Refused(layout, rs)
    ensures rs[0].MemSizeRecord? && Apply(layout, d, rs[0]).Failed?
  {
  }

  lemma StartOfSection(layout: seq<Block>, d: Dest, rs: seq<Record>)
    ensures EncodeAll(rs[..0]) == [] && ApplyAll(layout, d, rs[..0]) == Done(d)
  {
  }

  lemma FailureOfPrefix(layout: seq<Block>, d: Dest, rs: seq<Record>, k: nat)
    requires k < |rs|
    ensures ApplyAll(layout, d, rs[..k + 1]).Failed? ==> ApplyAll(layout, d, rs) == ApplyAll(layout, d, rs[..k + 1])
  {
    if ApplyAll(layout, d, rs[..k + 1]).Failed? {
      FailureIsFinal(layout, d, rs, k + 1);
    }
  }

  // ---------------------------------------------------------------------------------------------
  // Sender

  datatype Write = Write(at: Pos, data: Page, direct: bool)

  /** Sender state: guest RAM, the migration dirty bits, the hypervisor's log, and the pair
      `last_block`/`last_offset` (absent while `last_block` is null). */
  datatype Sender = Sender(ram: map<Pos, Page>, dirty: set<Pos>, logged: set<Pos>, last: Option<Pos>)

  ghost predicate GoodSender(blocks: seq<Block>, s: Sender) {
    && GoodLayout(blocks)
    && (forall q :: InRange(blocks, q) ==> q in s.ram)
    && (forall q :: q in s.dirty || q in s.logged ==> InRange(blocks, q))
    && (s.last.Some? ==> InRange(blocks, s.last.value))
  }

  /** Until the first page is sent every page is dirty. This is what makes the scan of
      `ram_save_block` stop while `last_block` is still null. */
  ghost predicate Started(blocks: seq<Block>, s: Sender) {
    s.last.None? ==> forall q :: InRange(blocks, q) ==> q in s.dirty
  }

  ghost predicate IsFill(p: Page) {
    forall i :: 0 <= i < PAGE_SIZE ==> p[i] == p[0]
  }

  /** The record `ram_save_block` writes for page `q`. */
  ghost function RecordFor(blocks: seq<Block>, s: Sender, q: Pos): Record
    requires InRange(blocks, q) && q in s.ram
  {
    var cont := s.last.Some? && s.last.value.b == q.b;
    if IsFill(s.ram[q]) then FillRecord(cont, blocks[q.b].id, q.p, s.ram[q][0])
    else PageRecord(cont, blocks[q.b].id, q.p, s.ram[q])
  }

  function Sent(s: Sender, q: Pos): Sender {
    s.(dirty := s.dirty - {q}, last := Some(q))
  }

  function AfterWrite(s: Sender, w: Write): Sender {
    var s' := s.(ram := s.ram[w.at := w.data]);
    if w.direct then s'.(dirty := s.dirty + {w.at}) else s'.(logged := s.logged + {w.at})
  }

  function AfterWrites(s: Sender, ws: seq<Write>): Sender {
    if ws == [] then s else AfterWrite(AfterWrites(s, ws[..|ws| - 1]), ws[|ws| - 1])
  }

  /** Guest RAM after the stores, first to last. */
  function RamAfter(ram: map<Pos, Page>, ws: seq<Write>): map<Pos, Page> {
    if ws == [] then ram else RamAfter(ram, ws[..|ws| - 1])[ws[|ws| - 1].at := ws[|ws| - 1].data]
  }

  lemma {:induction false} RamOfWrites(s: Sender, ws: seq<Write>)
    ensures AfterWrites(s, ws).ram == RamAfter(s.ram, ws)
  {
    if ws != [] { RamOfWrites(s, ws[..|ws| - 1]); }
  }

  lemma {:induction false} RamAppend(ram: map<Pos, Page>, a: seq<Write>, b: seq<Write>)
    ensures RamAfter(RamAfter(ram, a), b) == RamAfter(ram, a + b)
  {
    if b == [] {
      assert a + b == a;
    } else {
      assert (a + b)[..|a + b| - 1] == a + b[..|b| - 1];
      RamAppend(ram, a, b[..|b| - 1]);
    }
  }

  lemma NoRamChange(ram: map<Pos, Page>)
    ensures RamAfter(ram, []) == ram
  {
  }

  /** The stores before the first `calls` calls of `ram_save_block`. */
  function Flat(script: seq<seq<Write>>, calls: nat): seq<Write> {
    if calls == 0 || calls > |script| then [] else Flat(script, calls - 1) + script[calls - 1]
  }

  lemma {:induction false} NoStores(script: seq<seq<Write>>, calls: nat)
    requires forall k :: 0 <= k < |script| ==> script[k] == []
    ensures Flat(script, calls) == []
  {
    if 0 < calls <= |script| { NoStores(script, calls - 1); }
  }

  /** `memory_global_sync_dirty_bitmap`. */
  function AfterSync(s: Sender): Sender {
    s.(dirty := s.dirty + s.logged, logged := {})
  }

  predicate Before(q: Pos, r: Pos) {
    q.b < r.b || (q.b == r.b && q.p < r.p)
  }

  /** Walking the RAM list from `start` and wrapping at its end, `r` comes strictly before `q`. */
  predicate CyclicallyBefore(start: Pos, r: Pos, q: Pos) {
    if Before(q, start) then !Before(r, start) || Before(r, q)
    else !Before(r, start) && Before(r, q)
  }

  // ---------------------------------------------------------------------------------------------
  // The invariant of a migration

  function DestPos(layout: seq<Block>, blocks: seq<Block>, q: Pos): Pos
    requires q.b < |blocks| && Find(layout, blocks[q.b].id).Some?
  {
    Pos(Find(layout, blocks[q.b].id).value, q.p)
  }

  /** Page `q` of the source is present, unchanged, at the destination. */
  ghost predicate SamePage(layout: seq<Block>, blocks: seq<Block>, s: Sender, d: Dest, q: Pos) {
    && q.b < |blocks|
    && Find(layout, blocks[q.b].id).Some?
    && q in s.ram
    && DestPos(layout, blocks, q) in d.ram
    && d.ram[DestPos(layout, blocks, q)] == s.ram[q]
  }

  /** Every page is dirty, logged, or already equal; and the receiver's static block is the sender's
      `last_block`. */
  ghost predicate InSync(layout: seq<Block>, blocks: seq<Block>, s: Sender, d: Dest) {
    && (forall q :: InRange(blocks, q) ==> q in s.dirty || q in s.logged || SamePage(layout, blocks, s, d, q))
    && (s.last.Some? ==> s.last.value.b < |blocks| && d.block == Find(layout, blocks[s.last.value.b].id))
    && Started(blocks, s)
  }

  /** Position `q` of the receiver belongs to a page of the sender. */
  ghost predicate IsImage(layout: seq<Block>, blocks: seq<Block>, q: Pos) {
    exists b :: 0 <= b < |blocks| && q.p < blocks[b].pages && Find(layout, blocks[b].id) == Some(q.b)
  }

  /** From `d` to `d'` nothing was lost, and nothing was written but pages of the sender. */
  ghost predicate Confined(layout: seq<Block>, blocks: seq<Block>, d: Dest, d': Dest) {
    && (forall q :: q in d.ram ==> q in d'.ram)
    && (forall q :: q in d'.ram && !IsImage(layout, blocks, q) ==> q in d.ram && d'.ram[q] == d.ram[q])
  }

  /** What the receiver holds lies within its blocks. */
  ghost predicate InBounds(layout: seq<Block>, d: Dest) {
    forall q :: q in d.ram ==> InRange(layout, q)
  }

  lemma ConfinedTrans(layout: seq<Block>, blocks: seq<Block>, a: Dest, b: Dest, c: Dest)
    requires Confined(layout, blocks, a, b) && Confined(layout, blocks, b, c)
    ensures Confined(layout, blocks, a, c)
  {
    hide IsImage;
  }

  lemma ConfinedRefl(layout: seq<Block>, blocks: seq<Block>, d: Dest)
    ensures Confined(layout, blocks, d, d)
  {
  }

  /** An accepted sender never makes the receiver write past the end of a block. */
  lemma StaysInBounds(layout: seq<Block>, blocks: seq<Block>, d: Dest, d': Dest)
    requires Accepts(layout, blocks) && Confined(layout, blocks, d, d') && InBounds(layout, d)
    ensures InBounds(layout, d')
  {
    hide Find;
    forall q | q in d'.ram
      ensures InRange(layout, q)
    {
      if IsImage(layout, blocks, q) {
        var b :| 0 <= b < |blocks| && q.p < blocks[b].pages && Find(layout, blocks[b].id) == Some(q.b);
        assert AcceptsBlock(layout, blocks[b]);
      }
    }
  }

  lemma SendConfined(layout: seq<Block>, blocks: seq<Block>, s: Sender, d0: Dest, d: Dest, q: Pos)
    requires GoodSender(blocks, s) && Accepts(layout, blocks) && q in s.dirty
    requires InSync(layout, blocks, s, d) && Confined(layout, blocks, d0, d)
    requires Apply(layout, d, RecordFor(blocks, s, q)).Done?
    ensures Confined(layout, blocks, d0, Apply(layout, d, RecordFor(blocks, s, q)).value)
  {
    hide Find, SamePage;
    assert AcceptsBlock(layout, blocks[q.b]);
    var at := DestPos(layout, blocks, q);
    assert IsImage(layout, blocks, at);
    hide IsImage;
  }

  lemma DestPosInjective(layout: seq<Block>, blocks: seq<Block>, q: Pos, r: Pos)
    requires GoodLayout(blocks) && InRange(blocks, q) && InRange(blocks, r)
    requires Find(layout, blocks[q.b].id).Some? && Find(layout, blocks[r.b].id).Some?
    requires DestPos(layout, blocks, q) == DestPos(layout, blocks, r)
    ensures q == r
  {
    assert blocks[q.b].id == blocks[r.b].id;
  }

  lemma FillPage(p: Page)
    requires IsFill(p)
    ensures Fill(p[0]) == p
  {
  }

  /** Sending any dirty page keeps the invariant, once the receiver has applied its record. */
  lemma SendKeepsSync(layout: seq<Block>, blocks: seq<Block>, s: Sender, d: Dest, q: Pos)
    requires GoodSender(blocks, s) && Accepts(layout, blocks) && q in s.dirty
    requires InSync(layout, blocks, s, d)
    ensures Apply(layout, d, RecordFor(blocks, s, q)).Done?
    ensures InSync(layout, blocks, Sent(s, q), Apply(layout, d, RecordFor(blocks, s, q)).value)
    ensures GoodSender(blocks, Sent(s, q))
  {
    assert AcceptsBlock(layout, blocks[q.b]);
    var rec := RecordFor(blocks, s, q);
    if IsFill(s.ram[q]) {
      FillPage(s.ram[q]);
    }
    assert Target(layout, d, rec.cont, rec.id) == Find(layout, blocks[q.b].id);
    var d' := Apply(layout, d, rec).value;
    assert d'.ram == d.ram[DestPos(layout, blocks, q) := s.ram[q]];
    var s' := Sent(s, q);
    forall r | InRange(blocks, r)
      ensures r in s'.dirty || r in s'.logged || SamePage(layout, blocks, s', d', r)
    {
      if r != q && SamePage(layout, blocks, s, d, r) {
        if DestPos(layout, blocks, r) == DestPos(layout, blocks, q) {
          DestPosInjective(layout, blocks, q, r);
        }
      }
    }
  }

  lemma WriteKeepsSync(layout: seq<Block>, blocks: seq<Block>, s: Sender, d: Dest, w: Write)
    requires GoodSender(blocks, s) && InRange(blocks, w.at)
    ensures GoodSender(blocks, AfterWrite(s, w))
    ensures Started(blocks, s) ==> Started(blocks, AfterWrite(s, w))
    ensures InSync(layout, blocks, s, d) ==> InSync(layout, blocks, AfterWrite(s, w), d)
  {
    var s' := AfterWrite(s, w);
    if InSync(layout, blocks, s, d) {
      forall r | InRange(blocks, r)
        ensures r in s'.dirty || r in s'.logged || SamePage(layout, blocks, s', d, r)
      {
        assert r == w.at ==> r in s'.dirty || r in s'.logged;
      }
    }
  }

  ghost predicate WritesInRange(blocks: seq<Block>, ws: seq<Write>) {
    forall i :: 0 <= i < |ws| ==> InRange(blocks, ws[i].at)
  }

  lemma {:induction false} WritesKeepSync(layout: seq<Block>, blocks: seq<Block>, s: Sender, d: Dest, ws: seq<Write>)
    requires GoodSender(blocks, s) && WritesInRange(blocks, ws)
    ensures GoodSender(blocks, AfterWrites(s, ws))
    ensures Started(blocks, s) ==> Started(blocks, AfterWrites(s, ws))
    ensures InSync(layout, blocks, s, d) ==> InSync(layout, blocks, AfterWrites(s, ws), d)
  {
    if ws != [] {
      var front := ws[..|ws| - 1];
      WritesKeepSync(layout, blocks, s, d, front);
      WriteKeepsSync(layout, blocks, AfterWrites(s, front), d, ws[|ws| - 1]);
    }
  }

  lemma SyncKeepsSync(layout: seq<Block>, blocks: seq<Block>, s: Sender, d: Dest)
    requires GoodSender(blocks, s)
    ensures GoodSender(blocks, AfterSync(s))
    ensures Started(blocks, s) ==> Started(blocks, AfterSync(s))
    ensures InSync(layout, blocks, s, d) ==> InSync(layout, blocks, AfterSync(s), d)
  {
    var s' := AfterSync(s);
    if InSync(layout, blocks, s, d) {
      forall r | InRange(blocks, r)
        ensures r in s'.dirty || r in s'.logged || SamePage(layout, blocks, s', d, r)
      {
      }
    }
  }

  lemma {:induction false} LengthInTotal(bs: seq<Block>, i: nat)
    requires i < |bs|
    ensures bs[i].Length() <= TotalLength(bs)
  {
    if i > 0 {
      LengthInTotal(bs[1..], i - 1);
    }
  }

  lemma RecordsAreGood(blocks: seq<Block>, s: Sender, q: Pos)
    requires GoodSender(blocks, s) && InRange(blocks, q)
    ensures GoodRecord(RecordFor(blocks, s, q))
  {
    LengthInTotal(blocks, q.b);
  }

  lemma MemSizeIsGood(blocks: seq<Block>)
    requires GoodLayout(blocks)
    ensures GoodRecord(MemSizeRecord(blocks))
  {
    TotalIsPageMultiple(blocks);
  }

  lemma FillMeans(p: Page)
    ensures IsFill(p) <==> forall i :: 0 <= i < |p| ==> p[i] == p[0]
  {
  }

  lemma IdLength(id: seq<byte>)
    ensures |EncodeId(id)| == 1 + |id|
  {
  }

  /** The first word of each kind of record, in numbers: a page is 4096 bytes long, and the flags are those of the
      format. */
  lemma HeaderWords(bs: seq<Block>, id: seq<byte>, page: nat, fill: byte, data: Page)
    ensures Header(MemSizeRecord(bs)) == TotalLength(bs) + 0x04 && Header(EosRecord) == 0x10
    ensures Header(FillRecord(false, id, page, fill)) == 4096 * page + 0x02
    ensures Header(FillRecord(true, id, page, fill)) == 4096 * page + 0x22
    ensures Header(PageRecord(false, id, page, data)) == 4096 * page + 0x08
    ensures Header(PageRecord(true, id, page, data)) == 4096 * page + 0x28
  {
  }

  lemma EncodedPage(blocks: seq<Block>, s: Sender, q: Pos)
    requires InRange(blocks, q) && q in s.ram
    ensures var cont := s.last.Some? && s.last.value.b == q.b;
            Encode(RecordFor(blocks, s, q))
            == Be64(q.p * PAGE_SIZE + (if cont then CONTINUE else 0) + (if IsFill(s.ram[q]) then COMPRESS else PAGE))
               + ((if cont then [] else EncodeId(blocks[q.b].id)) + (if IsFill(s.ram[q]) then [s.ram[q][0]] else s.ram[q]))
  {
    hide Be64;
  }

  class Source {
    const blocks: seq<Block>
    var ram: map<Pos, Page>
    var dirty: set<Pos>
    var logged: set<Pos>
    var lastBlock: Option<nat>
    var lastPage: nat
    var f: seq<byte>

    constructor (blocks: seq<Block>, ram: map<Pos, Page>)
      ensures this.blocks == blocks && this.ram == ram && f == []
      ensures State() == Sender(ram, {}, {}, None) && Valid()
    {
      this.blocks, this.ram := blocks, ram;
      dirty, logged, lastBlock, lastPage, f := {}, {}, None, 0, [];
    }

    ghost predicate Valid()
      reads this
    {
      lastBlock.None? ==> lastPage == 0
    }

    ghost function State(): Sender
      reads this
    {
      Sender(ram, dirty, logged, if lastBlock.None? then None else Some(Pos(lastBlock.value, lastPage)))
    }

    /** `is_dup_page`, comparing 16-byte vectors with the splat of the first byte. */
    static method IsDupPage(p: Page) returns (dup: bool)
      ensures dup == IsFill(p)
    {
      var val := seq(16, _ => p[0]);
      var i := 0;
      while i < PAGE_SIZE / 16
        invariant 0 <= i <= PAGE_SIZE / 16
        invariant forall j :: 0 <= j < 16 * i ==> p[j] == p[0]
      {
        if p[16 * i..16 * i + 16] != val {
          assert exists j :: 0 <= j < 16 && p[16 * i..16 * i + 16][j] != val[j];
          return false;
        }
        assert forall j :: 16 * i <= j < 16 * i + 16 ==> p[j] == p[16 * i..16 * i + 16][j - 16 * i];
        i := i + 1;
      }
      return true;
    }

    /** Write out page `q`, whose dirty bit was just cleared. */
    method PutPage(q: Pos) returns (sent: nat)
      requires InRange(blocks, q) && q in ram
      modifies this`f
      ensures sent > 0 && f == old(f) + Encode(RecordFor(blocks, State(), q))
      ensures sent == if forall i :: 0 <= i < |ram[q]| ==> ram[q][i] == ram[q][0] then 1 else 4096
      ensures |f| == |old(f)| + 8 + (if lastBlock == Some(q.b) then 0 else 1 + |blocks[q.b].id|) + sent
    {
      hide Be64, IsFill, EncodeId, RecordFor, Encode;
      FillMeans(ram[q]);
      IdLength(blocks[q.b].id);
      EncodedPage(blocks, State(), q);
      var cont := if lastBlock == Some(q.b) then CONTINUE else 0;
      var p := ram[q];
      var dup := IsDupPage(p);
      var word := Be64(q.p * PAGE_SIZE + cont + (if dup then COMPRESS else PAGE));
      var id := if cont == 0 then EncodeId(blocks[q.b].id) else [];
      var body := if dup then [p[0]] else p;
      f := f + (word + (id + body));
      sent := |body|;
    }

    /** `ram_save_block`: send the first dirty page at or after the last one sent. With `last_block`
        null the scan has no end mark, so the source relies on some page being dirty. */
    method SaveBlock() returns (sent: nat, ghost at: Pos)
      requires Valid() && GoodSender(blocks, State())
      requires lastBlock.None? ==> dirty != {}
      modifies this
      ensures Valid()
      ensures sent == 0 <==> old(dirty) == {}
      ensures sent == 0 ==> State() == old(State()) && f == old(f)
      ensures sent > 0 ==> at in old(dirty) && State() == Sent(old(State()), at)
      ensures sent > 0 ==> at in old(ram) && f == old(f) + Encode(RecordFor(blocks, old(State()), at))
      ensures sent > 0 ==> forall r :: r in old(dirty) ==>
                !CyclicallyBefore(if old(lastBlock).Some? then Pos(old(lastBlock).value, old(lastPage)) else Pos(0, 0), r, at)
    {
      hide Encode, TotalLength, IsFill;
      var block: nat := if lastBlock.None? then 0 else lastBlock.value;
      var page: nat := lastPage;
      ghost var start := Pos(block, page);
      ghost var wrapped := false;
      sent, at := 0, start;
      while true
        invariant InRange(blocks, Pos(block, page)) && State() == old(State()) && f == old(f) && sent == 0
        invariant wrapped == Before(Pos(block, page), start)
        invariant forall r :: r in dirty ==> !CyclicallyBefore(start, r, Pos(block, page))
        invariant lastBlock.None? ==> !wrapped
        decreases !wrapped, |blocks| - block, blocks[block].pages - page
      {
        if Pos(block, page) in dirty {
          at := Pos(block, page);
          dirty := dirty - {Pos(block, page)};
          assert RecordFor(blocks, State(), at) == RecordFor(blocks, old(State()), at);
          sent := PutPage(Pos(block, page));
          break;
        }
        ghost var cur := Pos(block, page);
        page := page + 1;
        if page >= blocks[block].pages {
          page := 0;
          block := block + 1;
          if block == |blocks| {
            block := 0;
            wrapped := true;
            if start == Pos(0, 0) {
              NothingLeft(blocks, dirty, start, cur);
            }
          }
        }
        if lastBlock == Some(block) && page == lastPage {
          NothingLeft(blocks, dirty, start, cur);
          break;
        }
      }
      lastBlock := Some(block);
      lastPage := page;
    }

    /** Guest stores of one scheduling slice. */
    method GuestWrites(ws: seq<Write>)
      modifies this
      ensures State() == AfterWrites(old(State()), ws) && f == old(f) && ram == RamAfter(old(ram), ws)
      ensures lastBlock == old(lastBlock) && lastPage == old(lastPage)
    {
      var i := 0;
      while i < |ws|
        invariant 0 <= i <= |ws| && f == old(f) && lastBlock == old(lastBlock) && lastPage == old(lastPage)
        invariant State() == AfterWrites(old(State()), ws[..i])
      {
        ram := ram[ws[i].at := ws[i].data];
        if ws[i].direct {
          dirty := dirty + {ws[i].at};
        } else {
          logged := logged + {ws[i].at};
        }
        assert ws[..i + 1][..i] == ws[..i];
        i := i + 1;
      }
      assert ws[..i] == ws;
      RamOfWrites(old(State()), ws);
    }

    /** Stage 1: forget the previous run, mark every page dirty, announce the block list. */
    method Begin()
      requires GoodSender(blocks, State())
      modifies this
      ensures Valid() && GoodSender(blocks, State())
      ensures lastBlock == None && ram == old(ram) && logged == old(logged)
      ensures forall q :: InRange(blocks, q) ==> q in dirty
      ensures f == old(f) + Encode(MemSizeRecord(blocks))
    {
      hide Be64, EncodeBlocks, TotalLength;
      lastBlock, lastPage := None, 0;
      var b := 0;
      while b < |blocks|
        invariant 0 <= b <= |blocks| && Valid() && GoodSender(blocks, State())
        invariant forall q :: InRange(blocks, q) && q.b < b ==> q in dirty
        invariant lastBlock == None && lastPage == 0 && ram == old(ram) && logged == old(logged) && f == old(f)
      {
        var p := 0;
        while p < blocks[b].pages
          invariant 0 <= p <= blocks[b].pages && Valid() && GoodSender(blocks, State())
          invariant forall q :: InRange(blocks, q) && (q.b < b || (q.b == b && q.p < p)) ==> q in dirty
          invariant lastBlock == None && lastPage == 0 && ram == old(ram) && logged == old(logged) && f == old(f)
        {
          if Pos(b, p) !in dirty {
            dirty := dirty + {Pos(b, p)};
          }
          p := p + 1;
        }
        b := b + 1;
      }
      f := f + Be64(TotalLength(blocks) + MEM_SIZE);
      PutBlockList();
      assert f == old(f) + Encode(MemSizeRecord(blocks));
    }

    method PutBlockList()
      modifies this`f
      ensures f == old(f) + EncodeBlocks(blocks)
    {
      hide Be64;
      var i := 0;
      while i < |blocks|
        invariant 0 <= i <= |blocks|
        invariant f + EncodeBlocks(blocks[i..]) == old(f) + EncodeBlocks(blocks)
      {
        ghost var here := f;
        f := f + EncodeBlock(blocks[i]);
        assert blocks[i..][0] == blocks[i] && blocks[i..][1..] == blocks[i + 1..];
        assert f + EncodeBlocks(blocks[i + 1..]) == here + EncodeBlocks(blocks[i..]);
        i := i + 1;
      }
      assert blocks[i..] == [];
    }

    /** `ram_save_live` in stages 1, 2 and 3. Entry `k` of `script` holds the guest stores that happen
        just before the `k`-th call of `ram_save_block`; its length is how many calls the rate limit
        allows, and `calls` how many are made before nothing is left to send. In stage 3 the guest is stopped. For a receiver in state `d0`, the records `recs`
        written out lead to `d1`, which is again in step with the sender. Each call but possibly the last sends
        one page. */
    method SaveLive(stage: int, script: seq<seq<Write>>, ghost layout: seq<Block>, ghost d0: Dest)
        returns (calls: nat, ghost recs: seq<Record>, ghost d1: Dest)
      requires stage == 1 || stage == 2 || stage == 3
      requires Valid() && GoodSender(blocks, State())
      requires forall k :: 0 <= k < |script| ==> WritesInRange(blocks, script[k]) && (stage == 3 ==> script[k] == [])
      requires stage != 1 ==> Started(blocks, State())
      requires stage != 1 && Accepts(layout, blocks) ==> InSync(layout, blocks, State(), d0)
      modifies this
      ensures Valid() && GoodSender(blocks, State()) && Started(blocks, State())
      ensures Section(recs) && f == old(f) + EncodeAll(recs)
      ensures stage == 1 ==> recs[0] == MemSizeRecord(blocks)
      ensures Accepts(layout, blocks) ==>
                ApplyAll(layout, d0, recs) == Done(d1) && InSync(layout, blocks, State(), d1) && Confined(layout, blocks, d0, d1)
      ensures calls <= |script| && ram == RamAfter(old(ram), Flat(script, calls))
      ensures calls < |script| ==> dirty == {}
      ensures stage != 3 ==>
                var pages := |recs| - if stage == 1 then 2 else 1;
                pages == calls || (dirty == {} && pages + 1 == calls)
      ensures stage == 3 ==> dirty == {} && logged == {} && ram == old(ram)
    {
      hide Confined, RamAfter, Flat, Be64, EncodeAll, ApplyAll, InSync, GoodSender, Started, Apply, Encode, WritesInRange, OpenSection, Section, Accepts;
      ghost var f0 := f;
      SyncKeepsSync(layout, blocks, State(), d0);
      dirty, logged := dirty + logged, {};
      recs, d1 := Open(stage == 1, layout, d0);
      calls, recs, d1 := SaveSome(script, stage == 3, layout, d0, recs, d1, f0);
      if stage == 3 {
        recs, d1 := SaveAll(layout, d0, recs, d1, f0);
      }
      f := f + Be64(EOS);
      EndSection(layout, d0, recs, d1);
      recs := recs + [EosRecord];
      assert f == f0 + EncodeAll(recs);
    }

    method Open(first: bool, ghost layout: seq<Block>, ghost d0: Dest)
        returns (ghost recs: seq<Record>, ghost d1: Dest)
      requires Valid() && GoodSender(blocks, State())
      requires !first ==> Started(blocks, State())
      requires !first && Accepts(layout, blocks) ==> InSync(layout, blocks, State(), d0)
      modifies this
      ensures Emitted(layout, d0, recs, d1, old(f))
      ensures recs == if first then [MemSizeRecord(blocks)] else []
      ensures ram == old(ram) && logged == old(logged)
    {
      hide Be64, Confined;
      recs, d1 := [], d0;
      ConfinedRefl(layout, blocks, d0);
      assert f == f + EncodeAll(recs);
      if first {
        Begin();
        MemSizeIsGood(blocks);
        recs := [MemSizeRecord(blocks)];
        AppendRecord(layout, d0, [], d0, MemSizeRecord(blocks));
        assert recs == [] + recs;
        assert EncodeAll([]) == [];
        assert EncodeAll(recs) == Encode(MemSizeRecord(blocks));
      }
    }

    /** The rate-limited loop. */
    method SaveSome(script: seq<seq<Write>>, stopped: bool, ghost layout: seq<Block>, ghost d0: Dest,
                    ghost recs: seq<Record>, ghost d1: Dest, ghost f0: seq<byte>)
        returns (calls: nat, ghost recs': seq<Record>, ghost d2: Dest)
      requires Emitted(layout, d0, recs, d1, f0)
      requires forall k :: 0 <= k < |script| ==> WritesInRange(blocks, script[k]) && (stopped ==> script[k] == [])
      modifies this
      ensures Emitted(layout, d0, recs', d2, f0) && recs <= recs'
      ensures calls <= |script| && ram == RamAfter(old(ram), Flat(script, calls))
      ensures calls < |script| ==> dirty == {}
      ensures |recs'| == |recs| + calls || (dirty == {} && |recs'| + 1 == |recs| + calls)
      ensures stopped ==> logged == old(logged) && ram == old(ram)
    {
      hide Confined, RamAfter, EncodeAll, ApplyAll, InSync, GoodSender, Started, OpenSection, Accepts;
      calls, recs', d2 := 0, recs, d1;
      NoRamChange(ram);
      while calls < |script|
        invariant calls <= |script|
        invariant Emitted(layout, d0, recs', d2, f0) && recs <= recs'
        invariant stopped ==> logged == old(logged)
        invariant |recs'| == |recs| + calls
        invariant ram == RamAfter(old(ram), Flat(script, calls))
      {
        WritesKeepSync(layout, blocks, State(), d2, script[calls]);
        RamAppend(old(ram), Flat(script, calls), script[calls]);
        GuestWrites(script[calls]);
        var sent;
        sent, recs', d2 := Step(layout, d0, recs', d2, f0);
        calls := calls + 1;
        if sent == 0 {
          break;
        }
      }
      if stopped {
        NoStores(script, calls);
        NoRamChange(old(ram));
      }
    }

    /** Stage 3: flush all remaining pages regardless of rate limiting. */
    method SaveAll(ghost layout: seq<Block>, ghost d0: Dest, ghost recs: seq<Record>, ghost d1: Dest, ghost f0: seq<byte>)
        returns (ghost recs': seq<Record>, ghost d2: Dest)
      requires Emitted(layout, d0, recs, d1, f0)
      modifies this
      ensures Emitted(layout, d0, recs', d2, f0) && recs <= recs'
      ensures dirty == {} && logged == old(logged) && ram == old(ram)
    {
      hide Confined, EncodeAll, ApplyAll, InSync, GoodSender, Started, OpenSection, Accepts;
      recs', d2 := recs, d1;
      while true
        invariant Emitted(layout, d0, recs', d2, f0) && recs <= recs'
        invariant logged == old(logged) && ram == old(ram)
        decreases |dirty|
      {
        var sent;
        sent, recs', d2 := Step(layout, d0, recs', d2, f0);
        if sent == 0 {
          return;
        }
      }
    }

    /** What holds between two calls of `ram_save_block`: `recs` is what went out since `f0`. */
    ghost predicate Emitted(layout: seq<Block>, d0: Dest, recs: seq<Record>, d1: Dest, f0: seq<byte>)
      reads this
    {
      && Valid() && GoodSender(blocks, State()) && Started(blocks, State())
      && f == f0 + EncodeAll(recs)
      && OpenSection(recs)
      && (Accepts(layout, blocks) ==>
            ApplyAll(layout, d0, recs) == Done(d1) && InSync(layout, blocks, State(), d1) && Confined(layout, blocks, d0, d1))
    }

    method Step(ghost layout: seq<Block>, ghost d0: Dest, ghost recs: seq<Record>, ghost d1: Dest, ghost f0: seq<byte>)
        returns (sent: nat, ghost recs': seq<Record>, ghost d2: Dest)
      requires Emitted(layout, d0, recs, d1, f0)
      modifies this
      ensures Emitted(layout, d0, recs', d2, f0) && recs <= recs'
      ensures logged == old(logged) && ram == old(ram)
      ensures sent == 0 <==> old(dirty) == {}
      ensures sent == 0 ==> dirty == {}
      ensures sent > 0 ==> |dirty| < |old(dirty)|
      ensures |recs'| == |recs| + if sent > 0 then 1 else 0
    {
      hide Confined, EncodeAll, ApplyAll, Apply, InSync, GoodSender, Started, OpenSection, Accepts, Encode, RecordFor, CyclicallyBefore;
      SomethingToScan(blocks, State());
      ghost var s := State();
      ghost var at;
      sent, at := SaveBlock();
      recs', d2 := recs, d1;
      if sent > 0 {
        d2 := SendStep(layout, blocks, s, d0, recs, d1, at);
        recs' := recs + [RecordFor(blocks, s, at)];
        assert f == f0 + EncodeAll(recs');
      }
    }
  }

  lemma SendStep(layout: seq<Block>, blocks: seq<Block>, s: Sender, d0: Dest, recs: seq<Record>, d1: Dest, q: Pos)
      returns (d2: Dest)
    requires GoodSender(blocks, s) && q in s.dirty && OpenSection(recs) && Started(blocks, s)
    requires Accepts(layout, blocks) ==>
               ApplyAll(layout, d0, recs) == Done(d1) && InSync(layout, blocks, s, d1) && Confined(layout, blocks, d0, d1)
    ensures q in s.ram && InRange(blocks, q)
    ensures GoodSender(blocks, Sent(s, q)) && Started(blocks, Sent(s, q))
    ensures var recs' := recs + [RecordFor(blocks, s, q)];
            && OpenSection(recs')
            && EncodeAll(recs') == EncodeAll(recs) + Encode(RecordFor(blocks, s, q))
            && (Accepts(layout, blocks) ==>
                  && ApplyAll(layout, d0, recs') == Done(d2) && InSync(layout, blocks, Sent(s, q), d2)
                  && Confined(layout, blocks, d0, d2))
  {
    hide EncodeAll, Encode, ApplyAll, Apply, InSync, Accepts, GoodRecord, Confined;
    var rec := RecordFor(blocks, s, q);
    RecordsAreGood(blocks, s, q);
    AppendRecord(layout, d0, recs, d1, rec);
    d2 := d1;
    if Accepts(layout, blocks) {
      SendKeepsSync(layout, blocks, s, d1, q);
      SendConfined(layout, blocks, s, d0, d1, q);
      d2 := Apply(layout, d1, rec).value;
    }
  }

  lemma AppendRecord(layout: seq<Block>, d0: Dest, recs: seq<Record>, d1: Dest, rec: Record)
    ensures EncodeAll(recs + [rec]) == EncodeAll(recs) + Encode(rec)
    ensures ApplyAll(layout, d0, recs) == Done(d1) ==> ApplyAll(layout, d0, recs + [rec]) == Apply(layout, d1, rec)
    ensures OpenSection(recs) && GoodRecord(rec) && rec != EosRecord ==> OpenSection(recs + [rec])
  {
    hide Be64;
    assert (recs + [rec])[..|recs|] == recs;
  }

  ghost predicate OpenSection(rs: seq<Record>) {
    forall i :: 0 <= i < |rs| ==> GoodRecord(rs[i]) && rs[i] != EosRecord
  }

  lemma SomethingToScan(blocks: seq<Block>, s: Sender)
    requires GoodSender(blocks, s) && Started(blocks, s)
    ensures s.last.None? ==> s.dirty != {}
  {
    assert InRange(blocks, Pos(0, 0));
  }

  lemma EndSection(layout: seq<Block>, d0: Dest, recs: seq<Record>, d1: Dest)
    requires OpenSection(recs)
    ensures Section(recs + [EosRecord])
    ensures EncodeAll(recs + [EosRecord]) == EncodeAll(recs) + Be64(EOS)
    ensures ApplyAll(layout, d0, recs) == Done(d1) ==> ApplyAll(layout, d0, recs + [EosRecord]) == Done(d1)
  {
    hide Be64;
    AppendRecord(layout, d0, recs, d1, EosRecord);
    assert Encode(EosRecord) == Be64(EOS);
  }

  /** The scan is at `cur`, the page before `start` in cyclic order, and has met nothing dirty. */
  lemma NothingLeft(blocks: seq<Block>, dirty: set<Pos>, start: Pos, cur: Pos)
    requires forall r :: r in dirty ==> InRange(blocks, r)
    requires InRange(blocks, cur) && InRange(blocks, start) && cur !in dirty
    requires forall r :: r in dirty ==> !CyclicallyBefore(start, r, cur)
    requires forall r :: InRange(blocks, r) && r != cur ==> CyclicallyBefore(start, r, cur)
    ensures dirty == {}
  {
  }

  // ---------------------------------------------------------------------------------------------
  // A whole migration

  /** Guest stores before a call of `ram_save_live`, and those during it. */
  datatype Round = Round(before: seq<Write>, script: seq<seq<Write>>)

  ghost predicate RoundInRange(blocks: seq<Block>, r: Round) {
    WritesInRange(blocks, r.before) && forall k :: 0 <= k < |r.script| ==> WritesInRange(blocks, r.script[k])
  }

  lemma CleanMeansEqual(layout: seq<Block>, blocks: seq<Block>, s: Sender, d: Dest)
    requires InSync(layout, blocks, s, d) && s.dirty == {} && s.logged == {}
    ensures forall q :: InRange(blocks, q) ==> SamePage(layout, blocks, s, d, q)
  {
  }

  lemma {:induction false} RejectedAtOnce(layout: seq<Block>, d: Dest, rs: seq<Record>)
    requires Refused(layout, rs)
    ensures ApplyAll(layout, d, rs) == Failed(Einval)
  {
    if |rs| > 1 {
      RejectedAtOnce(layout, d, rs[..|rs| - 1]);
    } else {
      assert rs[..0] == [];
    }
  }

  /** One call of `ram_save_live` whose section is then loaded. */
  method Exchange(src: Source, dst: Destination, stage: int, script: seq<seq<Write>>)
      returns (err: Option<Error>, calls: nat)
    requires stage == 1 || stage == 2 || stage == 3
    requires src.Valid() && src.f == [] && GoodSender(src.blocks, src.State())
    requires forall k :: 0 <= k < |script| ==> WritesInRange(src.blocks, script[k]) && (stage == 3 ==> script[k] == [])
    requires stage != 1 ==> Started(src.blocks, src.State()) && Accepts(dst.blocks, src.blocks)
    requires stage != 1 ==> InSync(dst.blocks, src.blocks, src.State(), dst.State())
    modifies src, dst
    ensures err == None <==> Accepts(dst.blocks, src.blocks)
    ensures err.Some? ==> err == Some(Einval) && dst.State() == old(dst.State())
    ensures src.Valid() && src.f == [] && GoodSender(src.blocks, src.State()) && Started(src.blocks, src.State())
    ensures err == None ==> InSync(dst.blocks, src.blocks, src.State(), dst.State())
    ensures err == None ==> Confined(dst.blocks, src.blocks, old(dst.State()), dst.State())
    ensures calls <= |script| && src.ram == RamAfter(old(src.ram), Flat(script, calls))
    ensures calls < |script| ==> src.dirty == {}
    ensures stage == 3 ==> src.dirty == {} && src.logged == {} && src.ram == old(src.ram)
  {
    hide Confined, RamAfter, Flat, EncodeAll, ApplyAll, InSync, GoodSender, Started, WritesInRange, Section;
    ghost var recs, d1;
    calls, recs, d1 := src.SaveLive(stage, script, dst.blocks, dst.State());
    var section := src.f;
    assert section == EncodeAll(recs);
    src.f := [];
    if stage == 1 && !Accepts(dst.blocks, src.blocks) {
      assert recs != [] by { SectionNotEmpty(recs); }
      RejectedAtOnce(dst.blocks, dst.State(), recs);
    }
    err := dst.Load(section, 4, recs);
  }

  lemma SectionNotEmpty(recs: seq<Record>)
    requires Section(recs)
    ensures recs != []
  {
  }

  /** The stores of whole rounds, of which round `i` made `calls[i]` calls of `ram_save_block`. */
  function Stores(rounds: seq<Round>, calls: seq<nat>): seq<Write>
    requires |rounds| == |calls|
  {
    if rounds == [] then []
    else
      var n := |rounds| - 1;
      Stores(rounds[..n], calls[..n]) + (rounds[n].before + Flat(rounds[n].script, calls[n]))
  }

  lemma RamOfRound(ram: map<Pos, Page>, rounds: seq<Round>, calls: seq<nat>, r: Round, n: nat)
    requires |rounds| == |calls|
    ensures RamAfter(RamAfter(RamAfter(ram, Stores(rounds, calls)), r.before), Flat(r.script, n))
            == RamAfter(ram, Stores(rounds + [r], calls + [n]))
  {
    assert (rounds + [r])[..|rounds|] == rounds && (calls + [n])[..|rounds|] == calls;
    RamAppend(RamAfter(ram, Stores(rounds, calls)), r.before, Flat(r.script, n));
    RamAppend(ram, Stores(rounds, calls), r.before + Flat(r.script, n));
  }

  /** The guest runs, then one call of `ram_save_live` is made and its section loaded. */
  method RunRound(src: Source, dst: Destination, stage: int, r: Round, ghost ram0: map<Pos, Page>,
                  ghost rounds: seq<Round>, ghost calls: seq<nat>)
      returns (err: Option<Error>, n: nat)
    requires stage == 1 || stage == 2 || stage == 3
    requires src.Valid() && src.f == [] && GoodSender(src.blocks, src.State()) && RoundInRange(src.blocks, r)
    requires stage == 3 ==> forall k :: 0 <= k < |r.script| ==> r.script[k] == []
    requires stage != 1 ==> Started(src.blocks, src.State()) && Accepts(dst.blocks, src.blocks)
    requires stage != 1 ==> InSync(dst.blocks, src.blocks, src.State(), dst.State())
    requires |rounds| == |calls| && src.ram == RamAfter(ram0, Stores(rounds, calls))
    modifies src, dst
    ensures err == None <==> Accepts(dst.blocks, src.blocks)
    ensures err.Some? ==> err == Some(Einval) && dst.State() == old(dst.State())
    ensures src.Valid() && src.f == [] && GoodSender(src.blocks, src.State()) && Started(src.blocks, src.State())
    ensures err == None ==> InSync(dst.blocks, src.blocks, src.State(), dst.State())
    ensures err == None ==> Confined(dst.blocks, src.blocks, old(dst.State()), dst.State())
    ensures n <= |r.script| && src.ram == RamAfter(ram0, Stores(rounds + [r], calls + [n]))
    ensures stage == 3 ==> src.dirty == {} && src.logged == {}
  {
    hide Confined, InSync, GoodSender, Started, WritesInRange, SamePage, Accepts, RamAfter, Flat, Stores;
    WritesKeepSync(dst.blocks, src.blocks, src.State(), dst.State(), r.before);
    src.GuestWrites(r.before);
    err, n := Exchange(src, dst, stage, r.script);
    RamOfRound(ram0, rounds, calls, r, n);
  }

  /** The stages of a migration, with the guest writing until it is stopped for stage 3. It succeeds
      exactly when the receiver has every block of the sender at the same length, and then leaves every
      page of the source at the destination as the guest last wrote it, changes nothing else there, and
      stays within the receiver's blocks. */
  method Migrate(src: Source, dst: Destination, first: Round, rounds: seq<Round>, last: Round)
      returns (err: Option<Error>, calls: seq<nat>)
    requires src.Valid() && src.f == [] && GoodSender(src.blocks, src.State())
    requires RoundInRange(src.blocks, first) && RoundInRange(src.blocks, last)
    requires forall i :: 0 <= i < |rounds| ==> RoundInRange(src.blocks, rounds[i])
    requires forall k :: 0 <= k < |last.script| ==> last.script[k] == []
    modifies src, dst
    ensures err == None <==>
              forall i :: 0 <= i < |src.blocks| ==> SameBlockHere(dst.blocks, src.blocks[i])
    ensures err.Some? ==> err == Some(Einval) && dst.State() == old(dst.State())
    ensures err == None ==> Confined(dst.blocks, src.blocks, old(dst.State()), dst.State())
    ensures err == None && InBounds(dst.blocks, old(dst.State())) ==> InBounds(dst.blocks, dst.State())
    ensures err == None ==>
              forall q :: InRange(src.blocks, q) ==> SamePage(dst.blocks, src.blocks, src.State(), dst.State(), q)
    ensures err == None ==> |calls| == |rounds| + 2 && src.ram == RamAfter(old(src.ram), Stores([first] + rounds + [last], calls))
    ensures err == None ==> forall i :: 0 <= i < |calls| ==> calls[i] <= |([first] + rounds + [last])[i].script|
  {
    hide Confined, InBounds, InSync, GoodSender, Started, RoundInRange, SamePage, Accepts, RamAfter, Stores, SameBlockHere;
    AcceptsMeans(dst.blocks, src.blocks);
    ghost var ram0, done, d0 := src.ram, [], dst.State();
    calls := [];
    NothingStored(ram0);
    var n;
    err, n := RunRound(src, dst, 1, first, ram0, [], []);
    if err.Some? {
      return;
    }
    done, calls := [first], [n];
    assert [] + [first] == done && [] + [n] == calls;
    var i := 0;
    while i < |rounds|
      invariant 0 <= i <= |rounds| && |calls| == |done| == i + 1 && done == [first] + rounds[..i]
      invariant src.Valid() && src.f == [] && GoodSender(src.blocks, src.State()) && Started(src.blocks, src.State())
      invariant InSync(dst.blocks, src.blocks, src.State(), dst.State()) && err == None && Accepts(dst.blocks, src.blocks)
      invariant src.ram == RamAfter(ram0, Stores(done, calls)) && Confined(dst.blocks, src.blocks, d0, dst.State())
      invariant forall j :: 0 <= j < |calls| ==> calls[j] <= |done[j].script|
    {
      ghost var d1 := dst.State();
      err, n := RunRound(src, dst, 2, rounds[i], ram0, done, calls);
      ConfinedTrans(dst.blocks, src.blocks, d0, d1, dst.State());
      done, calls := done + [rounds[i]], calls + [n];
      i := i + 1;
    }
    ghost var d1 := dst.State();
    err, n := RunRound(src, dst, 3, last, ram0, done, calls);
    ConfinedTrans(dst.blocks, src.blocks, d0, d1, dst.State());
    if InBounds(dst.blocks, d0) { StaysInBounds(dst.blocks, src.blocks, d0, dst.State()); }
    done, calls := done + [last], calls + [n];
    assert done == [first] + rounds + [last];
    CleanMeansEqual(dst.blocks, src.blocks, src.State(), dst.State());
  }

  lemma NothingStored(ram: map<Pos, Page>)
    ensures RamAfter(ram, Stores([], [])) == ram
  {
  }
}
