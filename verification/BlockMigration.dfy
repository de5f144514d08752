/** Live migration of block devices: the bulk and dirty phases of the sender with their asynchronous
    reads, guest writes in between, the records as bytes, and the receiver that reads and replays them.

    Disks are sequences of sectors. A chunk is `CHUNK` sectors long (the last of a disk may be shorter)
    and is the unit of dirty tracking and of transfer; cursors count chunks. */
module BlockMigration {
  import opened Wire

  const SECTOR_SIZE: nat := 512

  type Sector = s: seq<byte> | |s| == SECTOR_SIZE witness seq(SECTOR_SIZE, _ => 0)
  type Name = seq<byte>
  type Disks = map<Name, seq<Sector>>

  const CHUNK: nat := 2048

  function Chunks(sectors: nat): nat { (sectors + CHUNK - 1) / CHUNK }

  function ChunkOf(sector: nat): nat { sector / CHUNK }

  lemma ChunkBounds(sector: nat, c: nat)
    ensures ChunkOf(sector) == c <==> c * CHUNK <= sector < c * CHUNK + CHUNK
  {
  }

  lemma ChunksCover(sectors: nat, c: nat)
    ensures c < Chunks(sectors) <==> c * CHUNK < sectors
  {
  }

  // ---------------------------------------------------------------------------------------------
  // Records and the receiver's meaning of them

  /** A block record always carries a full chunk; what lies beyond the end of the disk is padding. */
  datatype Record = Block(name: Name, chunk: nat, buf: seq<Sector>) | Progress(percent: nat) | Eos

  /** The receiver knows the device, which is not empty, and the block does not start past its end. */
  predicate Fits(t: Disks, r: Record) {
    r.Block? ==> r.name in t && 0 < |t[r.name]| && r.chunk * CHUNK <= |t[r.name]| && |r.buf| == CHUNK
  }

  predicate AllFit(t: Disks, recs: seq<Record>) {
    forall i :: 0 <= i < |recs| ==> Fits(t, recs[i])
  }

  /** Sectors of a block that lie on a disk of that many sectors. */
  function Live(sectors: nat, c: nat): nat
    requires c * CHUNK <= sectors
  {
    if sectors - c * CHUNK < CHUNK then sectors - c * CHUNK else CHUNK
  }

  function Overwrite(disk: seq<Sector>, c: nat, buf: seq<Sector>): (r: seq<Sector>)
    requires c * CHUNK <= |disk| && |buf| == CHUNK
    ensures |r| == |disk|
  {
    var n := Live(|disk|, c);
    disk[..c * CHUNK] + buf[..n] + disk[c * CHUNK + n..]
  }

  ghost predicate SameSizes(t: Disks, u: Disks) {
    t.Keys == u.Keys && forall name :: name in t ==> |u[name]| == |t[name]|
  }

  function Apply(t: Disks, r: Record): (u: Disks)
    requires Fits(t, r)
    ensures SameSizes(t, u)
  {
    if r.Block? then t[r.name := Overwrite(t[r.name], r.chunk, r.buf)] else t
  }

  ghost function Replay(t: Disks, recs: seq<Record>): (u: Disks)
    requires AllFit(t, recs)
    ensures SameSizes(t, u)
  {
    if recs == [] then t
    else
      var last := recs[|recs| - 1];
      assert Fits(t, last);
      Apply(Replay(t, recs[..|recs| - 1]), last)
  }

  ghost function At(t: Disks, name: Name, x: nat): Sector
    requires name in t && x < |t[name]|
  {
    t[name][x]
  }

  lemma ApplyAt(t: Disks, r: Record, name: Name, x: nat)
    requires Fits(t, r) && name in t && x < |t[name]|
    ensures At(Apply(t, r), name, x) ==
      if r.Block? && r.name == name && r.chunk * CHUNK <= x < r.chunk * CHUNK + CHUNK
      then r.buf[x - r.chunk * CHUNK] else At(t, name, x)
  {
  }

  lemma ReplaySnoc(t: Disks, recs: seq<Record>, r: Record)
    requires AllFit(t, recs) && Fits(t, r)
    ensures AllFit(t, recs + [r])
    ensures Fits(Replay(t, recs), r)
    ensures Replay(t, recs + [r]) == Apply(Replay(t, recs), r)
  {
    assert (recs + [r])[..|recs|] == recs;
  }

  lemma {:induction false} ReplayAppend(t: Disks, a: seq<Record>, b: seq<Record>)
    requires AllFit(t, a + b)
    ensures AllFit(t, a) && AllFit(Replay(t, a), b)
    ensures Replay(t, a + b) == Replay(Replay(t, a), b)
  {
    forall i | 0 <= i < |a| ensures Fits(t, a[i]) { assert (a + b)[i] == a[i]; }
    forall i | 0 <= i < |b| ensures Fits(t, b[i]) { assert (a + b)[|a| + i] == b[i]; }
    if b == [] {
      assert a + b == a;
    } else {
      var b', r := b[..|b| - 1], b[|b| - 1];
      assert a + b == (a + b') + [r];
      forall i | 0 <= i < |a + b'| ensures Fits(t, (a + b')[i]) { assert (a + b)[i] == (a + b')[i]; }
      ReplayAppend(t, a, b');
      ReplaySnoc(t, a + b', r);
    }
  }

  /** What the last record leaves at a sector. */
  lemma ReplayAt(t: Disks, recs: seq<Record>, r: Record, name: Name, x: nat)
    requires AllFit(t, recs) && Fits(t, r) && name in t && x < |t[name]|
    ensures AllFit(t, recs + [r])
    ensures At(Replay(t, recs + [r]), name, x) ==
      if r.Block? && r.name == name && r.chunk * CHUNK <= x < r.chunk * CHUNK + CHUNK
      then r.buf[x - r.chunk * CHUNK] else At(Replay(t, recs), name, x)
  {
    hide Overwrite, Apply, Replay;
    ReplaySnoc(t, recs, r);
    ApplyAt(Replay(t, recs), r, name, x);
  }

  /** Changing one sector of one record shows on the final disks at most as that sector's new value. */
  lemma {:induction false} ReplayRefreshed(t: Disks, a: seq<Record>, r: Record, b: seq<Record>, j: nat, v: Sector,
                                           name: Name, x: nat)
    requires AllFit(t, a) && r.Block? && Fits(t, r) && AllFit(t, b) && j < CHUNK == |r.buf|
    requires name in t && x < |t[name]|
    ensures var r' := r.(buf := r.buf[j := v]);
      && AllFit(t, a + [r] + b) && AllFit(t, a + [r'] + b)
      && (|| At(Replay(t, a + [r'] + b), name, x) == At(Replay(t, a + [r] + b), name, x)
          || (name == r.name && x == r.chunk * CHUNK + j && At(Replay(t, a + [r'] + b), name, x) == v))
  {
    hide Replay, Fits;
    var r' := r.(buf := r.buf[j := v]);
    assert Fits(t, r') by { StillFits(t, r, j, v); }
    if b == [] {
      assert a + [r] + b == a + [r] && a + [r'] + b == a + [r'];
      ReplayAt(t, a, r, name, x);
      ReplayAt(t, a, r', name, x);
    } else {
      var b', last := b[..|b| - 1], b[|b| - 1];
      assert a + [r] + b == (a + [r] + b') + [last] && a + [r'] + b == (a + [r'] + b') + [last];
      ReplayRefreshed(t, a, r, b', j, v, name, x);
      ReplayAt(t, a + [r] + b', last, name, x);
      ReplayAt(t, a + [r'] + b', last, name, x);
    }
  }

  lemma StillFits(t: Disks, r: Record, j: nat, v: Sector)
    requires r.Block? && Fits(t, r) && j < CHUNK
    ensures Fits(t, r.(buf := r.buf[j := v]))
  {
  }

  // ---------------------------------------------------------------------------------------------
  // Devices of the sender

  datatype Dev = Dev(disk: seq<Sector>, dirty: seq<bool>, inflight: seq<bool>,
                     cur: nat, completed: nat, bulkDone: bool, curDirty: nat)

  predicate DevOk(d: Dev) {
    && |d.disk| > 0
    && |d.dirty| == |d.inflight| == Chunks(|d.disk|)
    && d.cur <= Chunks(|d.disk|)
    && d.curDirty <= Chunks(|d.disk|)
    && (d.bulkDone ==> d.cur == Chunks(|d.disk|))
  }

  type Devs = map<Name, Dev>

  ghost predicate DevsOk(devs: Devs) {
    forall name :: name in devs ==> DevOk(devs[name])
  }

  /** The receiver has every device of the sender, at the same size. */
  ghost predicate Matches(t: Disks, devs: Devs) {
    forall name :: name in devs ==> name in t && |t[name]| == |devs[name].disk|
  }

  /** The sector was passed by the bulk phase and its chunk has not been written since it was last read. */
  ghost predicate Settled(d: Dev, x: nat)
    requires DevOk(d) && x < |d.disk|
  {
    ChunksCover(|d.disk|, ChunkOf(x));
    ChunkBounds(x, ChunkOf(x));
    ChunkOf(x) < d.cur && !d.dirty[ChunkOf(x)]
  }

  /** The invariant. Once every record written or still to be written (queued, or being read) has
      arrived, the destination agrees with the source on every settled sector. */
  ghost predicate Synced(t: Disks, devs: Devs, recs: seq<Record>) {
    && DevsOk(devs) && Matches(t, devs) && AllFit(t, recs)
    && forall name, x :: name in devs && 0 <= x < |devs[name].disk| && Settled(devs[name], x) ==>
         At(Replay(t, recs), name, x) == devs[name].disk[x]
  }

  /** The buffer holds the chunk as it is on the disk now. */
  ghost predicate Reads(d: Dev, c: nat, buf: seq<Sector>) {
    && |buf| == CHUNK && c * CHUNK < |d.disk|
    && forall j :: 0 <= j < Live(|d.disk|, c) ==> buf[j] == d.disk[c * CHUNK + j]
  }

  /** A chunk is read and its dirty bit cleared: either one already passed by the bulk phase, or the next
      one. */
  lemma SubmitKeepsSync(t: Disks, devs: Devs, recs: seq<Record>, name: Name, c: nat, buf: seq<Sector>, d': Dev)
    requires Synced(t, devs, recs) && name in devs && Reads(devs[name], c, buf)
    requires DevOk(d') && d'.disk == devs[name].disk && c < |devs[name].dirty| && d'.dirty == devs[name].dirty[c := false]
    requires d'.cur == devs[name].cur || (c == devs[name].cur && d'.cur == c + 1)
    ensures Synced(t, devs[name := d'], recs + [Block(name, c, buf)])
  {
    hide Overwrite, Apply, Replay;
    var r := Block(name, c, buf);
    ReplaySnoc(t, recs, r);
    var devs' := devs[name := d'];
    forall n, x | n in devs' && 0 <= x < |devs'[n].disk| && Settled(devs'[n], x)
      ensures At(Replay(t, recs + [r]), n, x) == devs'[n].disk[x]
    {
      ReplayAt(t, recs, r, n, x);
      ChunkBounds(x, c);
      if n == name && ChunkOf(x) == c {
        assert buf[x - c * CHUNK] == d'.disk[c * CHUNK + (x - c * CHUNK)];
      } else {
        assert Settled(devs[n], x);
      }
    }
  }

  /** An outstanding read fetches one sector again, with whatever the disk holds now. */
  lemma RefreshKeepsSync(t: Disks, devs: Devs, recs: seq<Record>, i: nat, j: nat)
    requires Synced(t, devs, recs) && i < |recs| && recs[i].Block? && recs[i].name in devs
    requires j < CHUNK && recs[i].chunk * CHUNK + j < |devs[recs[i].name].disk|
    ensures var r := recs[i];
      Synced(t, devs, recs[i := r.(buf := r.buf[j := devs[r.name].disk[r.chunk * CHUNK + j]])])
  {
    hide Overwrite, Apply, Replay;
    var r := recs[i];
    var v := devs[r.name].disk[r.chunk * CHUNK + j];
    var recs' := recs[i := r.(buf := r.buf[j := v])];
    assert AllFit(t, recs');
    assert recs == recs[..i] + [r] + recs[i + 1..] && recs' == recs[..i] + [recs'[i]] + recs[i + 1..];
    forall n, x | n in devs && 0 <= x < |devs[n].disk| && Settled(devs[n], x)
      ensures At(Replay(t, recs'), n, x) == devs[n].disk[x]
    {
      ReplayRefreshed(t, recs[..i], r, recs[i + 1..], j, v, n, x);
    }
  }

  lemma WriteKeepsSync(t: Disks, devs: Devs, recs: seq<Record>, name: Name, x: nat, v: Sector)
    requires Synced(t, devs, recs) && name in devs && x < |devs[name].disk|
    ensures ChunkOf(x) < |devs[name].dirty|
    ensures var d := devs[name];
      Synced(t, devs[name := d.(disk := d.disk[x := v], dirty := d.dirty[ChunkOf(x) := true])], recs)
  {
    var d := devs[name];
    ChunkBounds(x, ChunkOf(x));
    ChunksCover(|d.disk|, ChunkOf(x));
    var d' := d.(disk := d.disk[x := v], dirty := d.dirty[ChunkOf(x) := true]);
    var devs' := devs[name := d'];
    forall n, y | n in devs' && 0 <= y < |devs'[n].disk| && Settled(devs'[n], y)
      ensures At(Replay(t, recs), n, y) == devs'[n].disk[y]
    {
      assert Settled(devs[n], y);
    }
  }

  /** What has been written is loaded: the rest is to be replayed on the new disks. */
  lemma LoadKeepsSync(t: Disks, devs: Devs, sent: seq<Record>, rest: seq<Record>)
    requires Synced(t, devs, sent + rest)
    ensures AllFit(t, sent) && Synced(Replay(t, sent), devs, rest)
  {
    ReplayAppend(t, sent, rest);
  }

  /** Bulk phase over, nothing dirty, nothing pending: the disks agree. */
  lemma CleanMeansEqual(t: Disks, devs: Devs, name: Name)
    requires Synced(t, devs, []) && name in devs && devs[name].bulkDone
    requires forall c :: 0 <= c < |devs[name].dirty| ==> !devs[name].dirty[c]
    ensures t[name] == devs[name].disk
  {
    var d := devs[name];
    forall x | 0 <= x < |d.disk| ensures t[name][x] == d.disk[x] {
      ChunkBounds(x, ChunkOf(x));
      ChunksCover(|d.disk|, ChunkOf(x));
      assert Settled(d, x);
      assert At(Replay(t, []), name, x) == d.disk[x];
    }
  }

  // ---------------------------------------------------------------------------------------------
  // The sender

  /** Dirty chunks of all devices. */
  ghost function Dirty(devs: Devs): set<(Name, int)> {
    set name, c | name in devs && 0 <= c < |devs[name].dirty| && devs[name].dirty[c] :: (name, c)
  }

  /** Chunks the bulk phase has not come to. */
  ghost function ToRead(devs: Devs): set<(Name, int)> {
    set name, c | name in devs && devs[name].cur <= c < Chunks(|devs[name].disk|) :: (name, c)
  }

  ghost function AllChunks(devs: Devs): set<(Name, int)> {
    set name, c | name in devs && 0 <= c < Chunks(|devs[name].disk|) :: (name, c)
  }

  lemma Fewer<T>(a: set<T>, b: set<T>)
    requires a <= b
    ensures |a| <= |b| && (a != b ==> |a| < |b|)
  {
    assert b == a + (b - a);
    if a != b {
      var x :| x in b - a;
      assert |b - a| > 0;
    }
  }

  lemma SameToRead(devs: Devs, devs': Devs)
    requires SameButBits(devs, devs')
    ensures ToRead(devs') == ToRead(devs)
  {
  }

  lemma MarksAreBits(devs: Devs, devs': Devs)
    requires SameButMarks(devs, devs')
    ensures SameButBits(devs, devs')
  {
  }

  lemma BulkRead(devs: Devs, name: Name)
    requires name in devs && DevOk(devs[name]) && devs[name].cur < Chunks(|devs[name].disk|)
    ensures var devs' := devs[name := AfterBulk(devs[name])];
      ToRead(devs') < ToRead(devs) && Dirty(devs') <= Dirty(devs)
  {
    var c := devs[name].cur;
    assert (name, c) in ToRead(devs) && (name, c) !in ToRead(devs[name := AfterBulk(devs[name])]);
  }

  lemma FreshWork(devs: Devs)
    ensures ToRead(AllUnread(devs)) == AllChunks(devs) && Dirty(AllUnread(devs)) == {}
  {
  }

  /** Nothing but in-flight bits and the dirty cursor changed. */
  ghost predicate SameButMarks(devs: Devs, devs': Devs) {
    && devs'.Keys == devs.Keys
    && forall name :: name in devs ==>
         devs'[name] == devs[name].(inflight := devs'[name].inflight, curDirty := devs'[name].curDirty)
  }

  lemma MarksKeepSync(t: Disks, devs: Devs, recs: seq<Record>, devs': Devs)
    requires Synced(t, devs, recs) && SameButMarks(devs, devs') && DevsOk(devs')
    ensures Synced(t, devs', recs)
    ensures Dirty(devs') == Dirty(devs)
  {
    forall n, x | n in devs' && 0 <= x < |devs'[n].disk| && Settled(devs'[n], x)
      ensures At(Replay(t, recs), n, x) == devs'[n].disk[x]
    {
      assert Settled(devs[n], x);
    }
    forall n, c | n in devs && 0 <= c < |devs[n].dirty| ensures (n, c) in Dirty(devs') <==> (n, c) in Dirty(devs) {}
  }

  /** Some outstanding read is for that chunk. */
  ghost predicate BeingRead(outstanding: seq<Record>, name: Name, c: int) {
    exists i :: 0 <= i < |outstanding| && outstanding[i].Block? && outstanding[i].name == name && outstanding[i].chunk == c
  }

  /** In-flight bits are set only for chunks being read. */
  ghost predicate MarksOk(devs: Devs, outstanding: seq<Record>) {
    forall name, c :: name in devs && 0 <= c < |devs[name].inflight| && devs[name].inflight[c] ==>
      BeingRead(outstanding, name, c)
  }

  ghost predicate BlocksOk(devs: Devs, outstanding: seq<Record>) {
    forall i :: 0 <= i < |outstanding| ==>
      var r := outstanding[i];
      r.Block? && r.name in devs && r.chunk * CHUNK < |devs[r.name].disk| && |r.buf| == CHUNK
  }

  predicate DevBulkOk(d: Dev, bulkCompleted: bool) {
    (d.cur == Chunks(|d.disk|) ==> d.bulkDone) && (bulkCompleted ==> d.bulkDone)
  }

  ghost predicate BulkOk(devs: Devs, bulkCompleted: bool) {
    forall name :: name in devs ==> DevBulkOk(devs[name], bulkCompleted)
  }

  lemma ChunkOfRead(devs: Devs, r: Record)
    requires DevsOk(devs) && r.Block? && r.name in devs && r.chunk * CHUNK < |devs[r.name].disk|
    ensures r.chunk < |devs[r.name].inflight| == |devs[r.name].dirty|
  {
    ChunksCover(|devs[r.name].disk|, r.chunk);
  }

  lemma MarkedDevOk(devs: Devs, name: Name, d: Dev)
    requires DevsOk(devs) && name in devs && |d.inflight| == |devs[name].inflight|
    requires d == devs[name].(inflight := d.inflight, curDirty := d.curDirty)
    requires d.curDirty == devs[name].curDirty || d.curDirty <= Chunks(|d.disk|)
    ensures DevsOk(devs[name := d]) && SameButMarks(devs, devs[name := d])
  {
  }

  lemma CompletionKeepsMarks(devs: Devs, outstanding: seq<Record>)
    requires MarksOk(devs, outstanding) && BlocksOk(devs, outstanding) && outstanding != [] && DevsOk(devs)
    ensures var r := outstanding[0];
      && r.Block? && r.name in devs && r.chunk < |devs[r.name].inflight|
      && MarksOk(devs[r.name := devs[r.name].(inflight := devs[r.name].inflight[r.chunk := false])], outstanding[1..])
  {
    hide DevOk;
    var r := outstanding[0];
    ChunkOfRead(devs, r);
    var devs' := devs[r.name := devs[r.name].(inflight := devs[r.name].inflight[r.chunk := false])];
    forall name, c | name in devs' && 0 <= c < |devs'[name].inflight| && devs'[name].inflight[c]
      ensures BeingRead(outstanding[1..], name, c)
    {
      assert devs[name].inflight[c];
      var i :| 0 <= i < |outstanding| && outstanding[i].Block? && outstanding[i].name == name && outstanding[i].chunk == c;
      assert i > 0;
      assert outstanding[1..][i - 1] == outstanding[i];
    }
  }

  ghost predicate SameDisks(devs: Devs, devs': Devs) {
    devs'.Keys == devs.Keys && forall name :: name in devs ==> devs'[name].disk == devs[name].disk
  }

  /** Nothing but dirty and in-flight bits and the dirty cursor changed. */
  ghost predicate SameButBits(devs: Devs, devs': Devs) {
    && devs'.Keys == devs.Keys
    && forall name :: name in devs ==>
         var d' := devs'[name];
         d' == devs[name].(dirty := d'.dirty, inflight := d'.inflight, curDirty := d'.curDirty)
  }

  /** No chunk that a dirty cursor has passed is dirty. */
  ghost predicate CleanBelow(devs: Devs) {
    forall name, c :: name in devs && 0 <= c < |devs[name].dirty| && c < devs[name].curDirty ==> !devs[name].dirty[c]
  }

  lemma Cleaned(devs: Devs, name: Name, c: nat, d: Dev)
    requires name in devs && c < |devs[name].dirty| && devs[name].dirty[c]
    requires d == devs[name].(dirty := devs[name].dirty[c := false], inflight := d.inflight)
    ensures Dirty(devs[name := d]) < Dirty(devs)
    ensures CleanBelow(devs) ==> CleanBelow(devs[name := d])
  {
    assert (name, c) in Dirty(devs) && (name, c) !in Dirty(devs[name := d]);
  }

  /** The scan of one device went on: at most its cursor and in-flight bits changed. */
  ghost predicate Scanned(devs: Devs, devs': Devs, name: Name) {
    && SameButMarks(devs, devs') && Dirty(devs') == Dirty(devs)
    && (CleanBelow(devs) ==> CleanBelow(devs'))
    && forall n :: n in devs && n != name ==> devs'[n].curDirty == devs[n].curDirty
  }

  lemma ScanSteps(a: Devs, b: Devs, c: Devs, name: Name)
    requires Scanned(a, b, name) && Scanned(b, c, name)
    ensures Scanned(a, c, name)
  {
    hide Dirty, CleanBelow;
  }

  lemma DrainIsScan(a: Devs, b: Devs, name: Name)
    requires SameButMarks(a, b) && Dirty(a) == Dirty(b) && forall n :: n in b ==> b[n].curDirty == a[n].curDirty
    ensures Scanned(a, b, name)
  {
    hide Dirty;
  }

  lemma MarksRefl(a: Devs)
    ensures SameButMarks(a, a)
  {
  }

  lemma KeysAndSizes(a: Devs, b: Devs, name: Name)
    requires SameButMarks(a, b) && name in a
    ensures name in b && b[name].disk == a[name].disk
  {
  }

  lemma AdvanceIsScan(a: Devs, b: Devs, name: Name)
    requires name in a && b.Keys == a.Keys && SameButMarks(a, b) && Dirty(b) == Dirty(a) && (CleanBelow(a) ==> CleanBelow(b))
    requires b == a[name := b[name]]
    ensures Scanned(a, b, name)
  {
    hide Dirty, CleanBelow;
  }

  /** The scan ended with a chunk being cleaned. */
  lemma ScanCleans(a: Devs, b: Devs, c: Devs, name: Name)
    requires Scanned(a, b, name) && SameButBits(b, c) && Dirty(c) < Dirty(b)
    requires forall n :: n in c ==> c[n].curDirty == b[n].curDirty
    requires CleanBelow(b) ==> CleanBelow(c)
    ensures SameButBits(a, c) && Dirty(c) < Dirty(a) && (CleanBelow(a) ==> CleanBelow(c))
    ensures forall n :: n in c && n != name ==> c[n].curDirty == a[n].curDirty
  {
    hide Dirty, CleanBelow;
  }

  lemma ScanEnds(a: Devs, b: Devs, name: Name)
    requires Scanned(a, b, name)
    ensures SameButBits(a, b) && Dirty(b) == Dirty(a) && (CleanBelow(a) ==> CleanBelow(b))
    ensures forall n :: n in b && n != name ==> b[n].curDirty == a[n].curDirty
  {
    hide Dirty, CleanBelow;
  }

  /** Chunk `c` is now being read, and if a re-read of it was in flight before, all older reads were completed first. */
  ghost predicate ReadAgain(d: Dev, d0: Dev, c: nat, outstanding: nat) {
    c < |d.inflight| && d.inflight[c] && (c < |d0.inflight| && d0.inflight[c] ==> outstanding == 1)
  }

  lemma NoMarks(devs: Devs, name: Name)
    requires MarksOk(devs, []) && name in devs
    ensures forall c :: 0 <= c < |devs[name].inflight| ==> !devs[name].inflight[c]
  {
  }

  lemma DevSizes(devs: Devs, name: Name)
    requires DevsOk(devs) && name in devs
    ensures |devs[name].dirty| == |devs[name].inflight| == Chunks(|devs[name].disk|) && devs[name].curDirty <= |devs[name].dirty|
  {
  }

  const BLOCK_SIZE: nat := CHUNK * 512

  function InBytes(blocks: int): int { blocks * BLOCK_SIZE }

  lemma NoBytes()
    ensures InBytes(0) == 0
  {
  }

  function ChunkData(disk: seq<Sector>, c: nat, junk: seq<Sector>): (buf: seq<Sector>)
    requires c * CHUNK < |disk| && |junk| == CHUNK
    ensures |buf| == CHUNK
    ensures forall j :: 0 <= j < Live(|disk|, c) ==> buf[j] == disk[c * CHUNK + j]
  {
    var n := Live(|disk|, c);
    disk[c * CHUNK..c * CHUNK + n] + junk[n..]
  }

  /** The next chunk of the bulk phase has been submitted. */
  function AfterBulk(d: Dev): Dev
    requires DevOk(d) && d.cur < Chunks(|d.disk|)
  {
    d.(completed := d.cur * CHUNK, dirty := d.dirty[d.cur := false], cur := d.cur + 1,
       bulkDone := d.cur + 1 == Chunks(|d.disk|))
  }

  /** A record that writes no sector may stand anywhere in the stream. */
  lemma NoteKeepsSync(t: Disks, devs: Devs, a: seq<Record>, r: Record, b: seq<Record>)
    requires Synced(t, devs, a + b) && !r.Block?
    ensures Synced(t, devs, a + [r] + b)
  {
    ReplayAppend(t, a, b);
    ReplaySnoc(t, a, r);
    forall i | 0 <= i < |a + [r] + b| ensures Fits(t, (a + [r] + b)[i]) {
      assert i > |a| ==> (a + [r] + b)[i] == (a + b)[i - 1];
      assert i < |a| ==> (a + [r] + b)[i] == (a + b)[i];
    }
    ReplayAppend(t, a + [r], b);
    assert Replay(t, a + [r] + b) == Replay(t, a + b);
    hide Replay, AllFit;
    forall n, x | n in devs && 0 <= x < |devs[n].disk| && Settled(devs[n], x)
      ensures At(Replay(t, a + [r] + b), n, x) == devs[n].disk[x]
    {
      assert At(Replay(t, a + b), n, x) == devs[n].disk[x];
    }
  }

  lemma SubmitKeepsOrder(devs: Devs, outstanding: seq<Record>, r: Record, d': Dev, bulkCompleted: bool)
    requires DevsOk(devs) && BlocksOk(devs, outstanding) && MarksOk(devs, outstanding) && BulkOk(devs, bulkCompleted)
    requires r.Block? && r.name in devs && r.chunk * CHUNK < |devs[r.name].disk| && |r.buf| == CHUNK
    requires DevOk(d') && d'.disk == devs[r.name].disk && DevBulkOk(d', bulkCompleted)
    requires r.chunk < |devs[r.name].inflight|
    requires d'.inflight == devs[r.name].inflight || d'.inflight == devs[r.name].inflight[r.chunk := true]
    ensures var devs' := devs[r.name := d'];
      var outstanding' := outstanding + [r];
      DevsOk(devs') && BlocksOk(devs', outstanding') && MarksOk(devs', outstanding') && BulkOk(devs', bulkCompleted)
  {
    hide DevOk, DevBulkOk;
    var devs', outstanding' := devs[r.name := d'], outstanding + [r];
    forall name, c | name in devs' && 0 <= c < |devs'[name].inflight| && devs'[name].inflight[c]
      ensures BeingRead(outstanding', name, c)
    {
      if name == r.name && c == r.chunk {
        assert outstanding'[|outstanding|] == r;
      } else {
        assert devs[name].inflight[c];
        var i :| 0 <= i < |outstanding| && outstanding[i].Block? && outstanding[i].name == name && outstanding[i].chunk == c;
        assert outstanding'[i] == outstanding[i];
      }
    }
  }

  class Sender {
    const order: seq<Name>
    var devs: Devs
    var outstanding: seq<Record>
    var queue: seq<Record>
    var submitted: nat
    var readDone: nat
    var transferred: nat
    var bulkCompleted: bool
    var prevProgress: int
    var totalSum: nat
    var stream: seq<Record>
    /** Whatever freshly allocated buffers happen to hold. */
    const junk: seq<Sector>
    /** Asynchronous reads issued since the migration started. */
    ghost var issued: nat

    ghost predicate Valid()
      reads this
    {
      && |junk| == CHUNK
      && DevsOk(devs) && (forall name :: name in devs <==> name in order)
      && submitted == |outstanding| && readDone == |queue|
      && submitted + readDone + transferred == issued
      && Eos !in stream && Eos !in queue
      && BlocksOk(devs, outstanding) && MarksOk(devs, outstanding) && BulkOk(devs, bulkCompleted)
    }

    /** Everything written or on its way. */
    ghost function Records(): seq<Record>
      reads this
    {
      stream + queue + outstanding
    }

    /** What is left to do: a chunk to be read counts twice, a block read or being read once. */
    ghost function Todo(): nat
      reads this
    {
      2 * (|ToRead(devs)| + |Dirty(devs)|) + |queue| + |outstanding| + if bulkCompleted then 0 else 1
    }

    /** The bulk phase is over and nothing is dirty. */
    ghost predicate AtRest()
      reads this
    {
      bulkCompleted && Dirty(devs) == {}
    }

    /** `blk_mig_read_cb` for the oldest read. */
    method CompleteRead(ghost t: Disks)
      requires Valid() && outstanding != [] && Synced(t, devs, Records())
      modifies this`devs, this`outstanding, this`queue, this`submitted, this`readDone
      ensures Valid() && Synced(t, devs, Records()) && Records() == old(Records())
      ensures outstanding == old(outstanding)[1..] && queue == old(queue) + [old(outstanding)[0]]
      ensures SameButMarks(old(devs), devs) && Dirty(devs) == old(Dirty(devs))
      ensures forall name :: name in devs ==> devs[name].curDirty == old(devs)[name].curDirty
    {
      hide Synced, DevOk, MarksOk;
      var blk := outstanding[0];
      CompletionKeepsMarks(devs, outstanding);
      var d := devs[blk.name];
      MarkedDevOk(devs, blk.name, d.(inflight := d.inflight[blk.chunk := false]));
      ghost var devs0 := devs;
      queue := queue + [blk];
      devs := devs[blk.name := d.(inflight := d.inflight[blk.chunk := false])];
      outstanding := outstanding[1..];
      submitted := submitted - 1;
      readDone := readDone + 1;
      assert Records() == old(Records());
      MarksKeepSync(t, devs0, Records(), devs);
    }

    /** `bdrv_drain_all`: afterwards nothing is outstanding and no chunk is marked in flight. */
    method DrainAll(ghost t: Disks)
      requires Valid() && Synced(t, devs, Records())
      modifies this`devs, this`outstanding, this`queue, this`submitted, this`readDone
      ensures Valid() && Synced(t, devs, Records()) && Records() == old(Records())
      ensures outstanding == [] && queue == old(queue + outstanding)
      ensures SameButMarks(old(devs), devs) && Dirty(devs) == old(Dirty(devs))
      ensures forall name :: name in devs ==> devs[name].curDirty == old(devs)[name].curDirty
    {
      hide Synced, DevOk, DevsOk, MarksOk, BlocksOk, BulkOk;
      while outstanding != []
        invariant Valid() && Synced(t, devs, Records()) && Records() == old(Records())
        invariant queue + outstanding == old(queue + outstanding)
        invariant SameButMarks(old(devs), devs) && Dirty(devs) == old(Dirty(devs))
        invariant forall name :: name in devs ==> devs[name].curDirty == old(devs)[name].curDirty
        decreases |outstanding|
      {
        CompleteRead(t);
      }
    }

    /** `flush_blks` with room for `limit` blocks before the rate limit stops it. */
    method Flush(limit: nat)
      requires Valid()
      modifies this`queue, this`stream, this`readDone, this`transferred
      ensures Valid() && Records() == old(Records())
      ensures queue == if limit < |old(queue)| then old(queue)[limit..] else []
    {
      hide DevsOk, MarksOk, BlocksOk, BulkOk;
      var sent := 0;
      while queue != []
        invariant Valid() && Records() == old(Records())
        invariant 0 <= sent <= |old(queue)| && sent <= limit && queue == old(queue)[sent..]
        decreases |queue|
      {
        if sent == limit {
          break;
        }
        stream := stream + [queue[0]];
        queue := queue[1..];
        readDone := readDone - 1;
        transferred := transferred + 1;
        sent := sent + 1;
      }
    }

    /** The asynchronous half of the two save functions: start reading chunk `c`, replacing the device's
        record by `d`. */
    method Submit(name: Name, c: nat, d: Dev, ghost t: Disks)
      requires Valid() && Synced(t, devs, Records()) && name in devs && c < |devs[name].dirty|
      requires DevOk(d) && d.disk == devs[name].disk && d.dirty == devs[name].dirty[c := false]
      requires d.cur == devs[name].cur || (c == devs[name].cur && d.cur == c + 1)
      requires d.inflight == devs[name].inflight || d.inflight == devs[name].inflight[c := true]
      requires DevBulkOk(d, bulkCompleted)
      modifies this`devs, this`outstanding, this`submitted, this`issued
      ensures Valid() && Synced(t, devs, Records())
      ensures devs == old(devs)[name := d] && |outstanding| == |old(outstanding)| + 1
    {
      hide Synced, DevsOk, BlocksOk, MarksOk, BulkOk, DevBulkOk;
      ChunkOnDisk(devs, name, c);
      var blk := Block(name, c, ChunkData(d.disk, c, junk));
      SubmitKeepsSync(t, devs, Records(), name, c, blk.buf, d);
      SubmitKeepsOrder(devs, outstanding, blk, d, bulkCompleted);
      assert stream + queue + (outstanding + [blk]) == Records() + [blk];
      outstanding := outstanding + [blk];
      submitted := submitted + 1;
      devs := devs[name := d];
      issued := issued + 1;
    }

    /** `mig_save_device_bulk` for a full migration; `end` once the last chunk has been submitted. */
    method SaveDeviceBulk(name: Name, ghost t: Disks) returns (end: bool)
      requires Valid() && Synced(t, devs, Records()) && name in devs && !devs[name].bulkDone && !bulkCompleted
      modifies this`devs, this`outstanding, this`submitted, this`issued
      ensures Valid() && Synced(t, devs, Records())
      ensures DevOk(old(devs)[name]) && old(devs)[name].cur < Chunks(|old(devs)[name].disk|)
      ensures devs == old(devs)[name := AfterBulk(old(devs)[name])] && |outstanding| == |old(outstanding)| + 1
      ensures end == devs[name].bulkDone
    {
      hide Synced, MarksOk, BlocksOk;
      var d := AfterBulk(devs[name]);
      Submit(name, d.cur - 1, d, t);
      end := d.bulkDone;
    }

    /** `blk_mig_save_bulked_block`: one chunk of the first device whose bulk phase is not over; `more` is
        false once there is no such device. */
    method SaveBulkedBlock(ghost t: Disks) returns (more: bool)
      requires Valid() && Synced(t, devs, Records()) && !bulkCompleted
      modifies this`devs, this`outstanding, this`submitted, this`issued, this`stream, this`prevProgress
      ensures Valid() && Synced(t, devs, Records())
      ensures SameDisks(old(devs), devs) && (old(CleanBelow(devs)) ==> CleanBelow(devs))
      ensures more ==> |outstanding| == |old(outstanding)| + 1 && ToRead(devs) < old(ToRead(devs)) && Dirty(devs) <= old(Dirty(devs))
      ensures !more ==> devs == old(devs) && outstanding == old(outstanding) && BulkOk(devs, true)
    {
      hide Synced, MarksOk, BlocksOk, DevsOk, ToRead, Dirty;
      more := false;
      var sum: nat, i := 0, 0;
      while i < |order|
        invariant 0 <= i <= |order| && Valid() && devs == old(devs) && outstanding == old(outstanding)
        invariant stream == old(stream) && issued == old(issued) && queue == old(queue)
        invariant forall k :: 0 <= k < i ==> devs[order[k]].bulkDone
        decreases |order| - i
      {
        var name := order[i];
        if !devs[name].bulkDone {
          var _ := SaveDeviceBulk(name, t);
          BulkRead(old(devs), name);
          more := true;
          sum := sum + devs[name].completed;
          break;
        }
        sum := sum + devs[name].completed;
        i := i + 1;
      }
      Report(sum, t);
    }

    /** A progress record, when the percentage has changed. */
    method Report(sum: nat, ghost t: Disks)
      requires Valid() && Synced(t, devs, Records())
      modifies this`stream, this`prevProgress
      ensures Valid() && Synced(t, devs, Records())
      ensures stream == old(stream) || exists p :: stream == old(stream) + [Progress(p)]
    {
      hide Synced, MarksOk, BlocksOk, DevsOk, BulkOk;
      var progress: nat := if totalSum != 0 then sum * 100 / totalSum else 100;
      if progress != prevProgress {
        prevProgress := progress;
        Note(Progress(progress), t);
      }
    }

    method Note(r: Record, ghost t: Disks)
      requires Valid() && Synced(t, devs, Records()) && r.Progress?
      modifies this`stream
      ensures Valid() && Synced(t, devs, Records()) && stream == old(stream) + [r]
    {
      hide Synced, MarksOk, BlocksOk, DevsOk, BulkOk;
      assert stream + (queue + outstanding) == Records();
      NoteKeepsSync(t, devs, stream, r, queue + outstanding);
      stream := stream + [r];
      assert stream + (queue + outstanding) == Records();
    }

    /** The dirty chunk `c` is read again, in the background or at once, and is clean. */
    method Resend(name: Name, c: nat, async: bool, ghost t: Disks)
      requires Valid() && Synced(t, devs, Records()) && name in devs && c < |devs[name].dirty| && devs[name].dirty[c]
      requires c < |devs[name].inflight| && !devs[name].inflight[c]
      requires async || (queue == [] && outstanding == [])
      modifies this`devs, this`outstanding, this`submitted, this`issued, this`stream
      ensures Valid() && Synced(t, devs, Records())
      ensures name in devs && c < |devs[name].inflight| && devs[name].inflight[c] == async
      ensures SameButBits(old(devs), devs) && Dirty(devs) < old(Dirty(devs))
      ensures forall n :: n in devs ==> devs[n].curDirty == old(devs)[n].curDirty
      ensures old(CleanBelow(devs)) ==> CleanBelow(devs)
      ensures if async then |outstanding| == |old(outstanding)| + 1 else outstanding == old(outstanding)
    {
      hide Synced, MarksOk, BlocksOk, Dirty, CleanBelow;
      ChunkOnDisk(devs, name, c);
      var d := devs[name];
      if async {
        d := d.(dirty := d.dirty[c := false], inflight := d.inflight[c := true]);
        Cleaned(devs, name, c, d);
        Submit(name, c, d, t);
      } else {
        d := d.(dirty := d.dirty[c := false]);
        Cleaned(devs, name, c, d);
        SendNow(name, c, d, t);
      }
    }

    /** Read at once and send. */
    method SendNow(name: Name, c: nat, d: Dev, ghost t: Disks)
      requires Valid() && Synced(t, devs, Records()) && queue == [] && outstanding == []
      requires name in devs && c < |devs[name].dirty| && d == devs[name].(dirty := devs[name].dirty[c := false])
      modifies this`devs, this`stream
      ensures Valid() && Synced(t, devs, Records()) && devs == old(devs)[name := d]
    {
      hide Synced, MarksOk, BlocksOk, Dirty, CleanBelow;
      ChunkOnDisk(devs, name, c);
      var buf := ChunkData(d.disk, c, junk);
      SubmitKeepsSync(t, devs, Records(), name, c, buf, d);
      MarksAfterSend(devs, name, d);
      assert Records() == stream;
      stream := stream + [Block(name, c, buf)];
      devs := devs[name := d];
      assert Records() == stream;
    }

    /** The dirty cursor moves past a clean chunk. */
    method Advance(name: Name, ghost t: Disks)
      requires Valid() && Synced(t, devs, Records()) && name in devs
      requires devs[name].curDirty < |devs[name].dirty| && !devs[name].dirty[devs[name].curDirty]
      modifies this`devs
      ensures Valid() && Synced(t, devs, Records())
      ensures devs == old(devs)[name := old(devs)[name].(curDirty := old(devs)[name].curDirty + 1)]
      ensures SameButMarks(old(devs), devs) && Dirty(devs) == old(Dirty(devs))
      ensures old(CleanBelow(devs)) ==> CleanBelow(devs)
    {
      hide Synced, Dirty;
      var d := devs[name].(curDirty := devs[name].curDirty + 1);
      MarkedDevOk(devs, name, d);
      MarksKeepSync(t, devs, Records(), devs[name := d]);
      devs := devs[name := d];
    }

    /** Chunk `c` must not be read twice at a time. */
    method DrainIfInFlight(name: Name, c: nat, ghost t: Disks)
      requires Valid() && Synced(t, devs, Records()) && name in devs && c < |devs[name].inflight|
      modifies this`devs, this`outstanding, this`queue, this`submitted, this`readDone
      ensures Valid() && Synced(t, devs, Records()) && Scanned(old(devs), devs, name)
      ensures name in devs && devs[name].disk == old(devs)[name].disk && devs[name].curDirty == old(devs)[name].curDirty
      ensures |devs[name].dirty| == |devs[name].inflight| == |old(devs)[name].inflight| && !devs[name].inflight[c]
      ensures outstanding == [] || (devs == old(devs) && outstanding == old(outstanding))
      ensures |queue| + |outstanding| == |old(queue)| + |old(outstanding)| && (old(queue + outstanding) == [] ==> queue == [])
    {
      hide Synced, MarksOk, BlocksOk, DevsOk, BulkOk, Scanned, SameButMarks, Dirty, CleanBelow, DevBulkOk;
      DevSizes(devs, name);
      if devs[name].inflight[c] {
        DrainAll(t);
        KeysAndSizes(old(devs), devs, name);
        DrainIsScan(old(devs), devs, name);
        DevSizes(devs, name);
        NoMarks(devs, name);
      } else {
        DrainIsScan(devs, devs, name) by { assert SameButMarks(devs, devs) by { MarksRefl(devs); } }
      }
    }

    /** `mig_save_device_dirty`: from the device's dirty cursor on, the first dirty chunk is read again, in
        the background or at once; `end` when there is none. */
    method SaveDeviceDirty(name: Name, async: bool, ghost t: Disks) returns (end: bool)
      requires Valid() && Synced(t, devs, Records()) && name in devs
      requires async || (queue == [] && outstanding == [])
      modifies this`devs, this`outstanding, this`queue, this`submitted, this`readDone, this`issued, this`stream
      ensures Valid() && Synced(t, devs, Records())
      ensures SameButBits(old(devs), devs) && Dirty(devs) <= old(Dirty(devs))
      ensures forall n :: n in devs && n != name ==> devs[n].curDirty == old(devs)[n].curDirty
      ensures old(CleanBelow(devs)) ==> CleanBelow(devs)
      ensures async ==> |queue| + |outstanding| == |old(queue)| + |old(outstanding)| + (if end then 0 else 1)
      ensures !async ==> queue == [] && outstanding == []
      ensures end ==> devs[name].curDirty == Chunks(|devs[name].disk|)
      ensures !end ==> Dirty(devs) != old(Dirty(devs))
      ensures !end && async ==> name in devs && exists c :: ReadAgain(devs[name], old(devs)[name], c, |outstanding|)
    {
      hide Synced, MarksOk, BlocksOk, DevsOk, BulkOk, Scanned, SameButBits, SameButMarks, Dirty, CleanBelow, DevBulkOk;
      DevSizes(devs, name);
      var c := devs[name].curDirty;
      var chunks := Chunks(|devs[name].disk|);
      ghost var devs0 := devs;
      DrainIsScan(devs, devs, name) by { assert SameButMarks(devs, devs) by { MarksRefl(devs); } }
      while c < chunks
        invariant Valid() && Synced(t, devs, Records()) && name in devs
        invariant Scanned(devs0, devs, name)
        invariant c <= chunks == Chunks(|devs[name].disk|) && devs[name].curDirty == c
        invariant outstanding == [] || devs[name].inflight == devs0[name].inflight
        invariant |queue| + |outstanding| == |old(queue)| + |old(outstanding)|
        invariant !async ==> queue == [] && outstanding == []
      {
        ghost var devs1 := devs;
        DevSizes(devs, name);
        DrainIfInFlight(name, c, t);
        ScanSteps(devs0, devs1, devs, name);
        ghost var devs2 := devs;
        if devs[name].dirty[c] {
          Resend(name, c, async, t);
          assert async ==> ReadAgain(devs[name], devs0[name], c, |outstanding|);
          ScanCleans(devs0, devs2, devs, name);
          return false;
        }
        Advance(name, t);
        AdvanceIsScan(devs2, devs, name);
        ScanSteps(devs0, devs2, devs, name);
        c := c + 1;
      }
      ScanEnds(devs0, devs, name);
      return true;
    }

    /** `blk_mig_save_dirty_block`: one dirty chunk of the first device that has one past its cursor;
        `more` is false when none has. */
    method SaveDirtyBlock(async: bool, ghost t: Disks) returns (more: bool)
      requires Valid() && Synced(t, devs, Records()) && CleanBelow(devs)
      requires async || (queue == [] && outstanding == [])
      modifies this`devs, this`outstanding, this`queue, this`submitted, this`readDone, this`issued, this`stream
      ensures Valid() && Synced(t, devs, Records()) && CleanBelow(devs)
      ensures SameButBits(old(devs), devs)
      ensures async ==> |queue| + |outstanding| == |old(queue)| + |old(outstanding)| + (if more then 1 else 0)
      ensures !async ==> queue == [] && outstanding == []
      ensures if more then Dirty(devs) < old(Dirty(devs)) else Dirty(devs) == {}
    {
      hide Synced, MarksOk, BlocksOk, DevsOk, BulkOk, DevBulkOk, SameButBits, Dirty, CleanBelow;
      var i := 0;
      ghost var devs0 := devs;
      BitsRefl(devs);
      while i < |order|
        invariant 0 <= i <= |order| && Valid() && Synced(t, devs, Records()) && CleanBelow(devs)
        invariant SameButBits(devs0, devs) && Dirty(devs) <= Dirty(devs0)
        invariant forall k :: 0 <= k < i ==> devs[order[k]].curDirty == Chunks(|devs[order[k]].disk|)
        invariant |queue| + |outstanding| == |old(queue)| + |old(outstanding)|
        invariant !async ==> queue == [] && outstanding == []
      {
        ghost var devs1 := devs;
        var end := SaveDeviceDirty(order[i], async, t);
        BitsTrans(devs0, devs1, devs);
        if !end {
          return true;
        }
        BitsSizes(devs1, devs);
        i := i + 1;
      }
      AllScanned(devs, order);
      return false;
    }

    /** The end of a call: what was written, closed by an end marker, goes out. */
    method Close(ghost t: Disks) returns (section: seq<Record>)
      requires Valid() && Synced(t, devs, Records())
      modifies this`stream
      ensures Valid() && stream == [] && Section(section) && Synced(t, devs, section + Records())
    {
      hide Synced, MarksOk, BlocksOk, DevsOk, BulkOk;
      assert stream + (queue + outstanding) == Records();
      NoteKeepsSync(t, devs, stream, Eos, queue + outstanding);
      section := stream + [Eos];
      stream := [];
      assert Records() == queue + outstanding;
    }

    /** Stage 1: the counters, cursors and dirty bits start afresh. */
    method Start(ghost t: Disks) returns (section: seq<Record>)
      requires |junk| == CHUNK && (forall name :: name in devs <==> name in order)
      requires forall name :: name in devs ==> |devs[name].disk| > 0
      requires Matches(t, devs) && queue == [] && outstanding == [] && stream == []
      modifies this
      ensures Valid() && Section(section) && Synced(t, devs, section + Records()) && SameDisks(old(devs), devs)
      ensures queue == [] && outstanding == [] && stream == [] && !bulkCompleted && devs == AllUnread(old(devs))
    {
      hide BlocksOk, Synced, MarksOk, BulkOk, DevsOk, AllUnread, SameDisks, Matches, Section;
      submitted, readDone, transferred, totalSum := 0, 0, 0, 0;
      prevProgress, bulkCompleted, issued := -1, false, 0;
      var i := 0;
      while i < |order|
        invariant 0 <= i <= |order|
        modifies this`totalSum
      {
        totalSum := totalSum + |devs[order[i]].disk|;
        i := i + 1;
      }
      FreshIsSynced(t, devs);
      devs := AllUnread(devs);
      assert Records() == [];
      section := Close(t);
    }

    /** `blk_mig_reset_dirty_cursor` */
    method ResetCursors(ghost t: Disks)
      requires Valid() && Synced(t, devs, Records())
      modifies this`devs
      ensures Valid() && Synced(t, devs, Records())
      ensures SameButMarks(old(devs), devs) && Dirty(devs) == old(Dirty(devs)) && CleanBelow(devs)
    {
      hide Synced, Dirty;
      ghost var devs0 := devs;
      devs := map name | name in devs :: devs[name].(curDirty := 0);
      MarksKeepSync(t, devs0, Records(), devs);
    }

    /** The loop of stage 2: bulk blocks, then dirty blocks, until as many are read or waiting as the rate
        limit allows, or nothing is left to read. It issues no more reads than the limit allows, and each
        turn gets something done. */
    method Fill(rateLimit: int, ghost t: Disks)
      requires Valid() && Synced(t, devs, Records()) && CleanBelow(devs)
      modifies this
      ensures Valid() && Synced(t, devs, Records()) && SameDisks(old(devs), devs)
      ensures InBytes(submitted + readDone) >= rateLimit || AtRest()
      ensures submitted + readDone == old(submitted + readDone) || InBytes(submitted + readDone - 1) < rateLimit
      ensures Todo() <= old(Todo()) && (old(AtRest()) ==> AtRest())
      ensures old(InBytes(submitted + readDone)) < rateLimit ==> Todo() < old(Todo()) || AtRest()
    {
      hide Synced, MarksOk, BlocksOk, DevsOk, BulkOk, DevBulkOk, SameButBits, SameButMarks, Dirty, CleanBelow, SameDisks, ToRead;
      ghost var devs0, todo0 := devs, Todo();
      DisksRefl(devs);
      while InBytes(submitted + readDone) < rateLimit
        invariant Valid() && Synced(t, devs, Records()) && SameDisks(devs0, devs) && CleanBelow(devs)
        invariant submitted + readDone == old(submitted + readDone) || InBytes(submitted + readDone - 1) < rateLimit
        invariant Todo() <= todo0 && (old(AtRest()) ==> AtRest())
        invariant Todo() < todo0 || (submitted == old(submitted) && readDone == old(readDone))
        decreases !bulkCompleted, rateLimit - InBytes(submitted + readDone)
      {
        ghost var devs1 := devs;
        if !bulkCompleted {
          var more := SaveBulkedBlock(t);
          SameDisksTrans(devs0, devs1, devs);
          if more {
            Fewer(ToRead(devs), ToRead(devs1));
            Fewer(Dirty(devs), Dirty(devs1));
          } else {
            bulkCompleted := true;
          }
        } else {
          var more := SaveDirtyBlock(true, t);
          BitsSameDisks(devs1, devs);
          SameDisksTrans(devs0, devs1, devs);
          SameToRead(devs1, devs);
          if !more {
            break;
          }
          Fewer(Dirty(devs), Dirty(devs1));
        }
      }
    }

    /** Stage 2, with room for `before` and `after` blocks in its two flushes. `complete` when the bulk phase
        is over and what is still dirty is nothing, or little enough by the bandwidth estimate. */
    method Iterate(before: nat, rateLimit: int, after: nat, little: bool, ghost t: Disks)
        returns (section: seq<Record>, complete: bool)
      requires Valid() && Synced(t, devs, Records())
      modifies this
      ensures Valid() && Section(section) && Synced(t, devs, section + Records()) && SameDisks(old(devs), devs)
      ensures stream == []
      ensures complete <==> bulkCompleted && (little || Dirty(devs) == {})
      ensures Todo() <= old(Todo()) && (old(AtRest()) ==> AtRest())
      ensures before > 0 && rateLimit > 0 && old(outstanding) == [] ==> Todo() < old(Todo()) || AtRest()
    {
      hide Synced, MarksOk, BlocksOk, DevsOk, BulkOk, DevBulkOk, SameButMarks, Dirty, CleanBelow, SameDisks, Section, ToRead, InBytes;
      NoBytes();
      ghost var devs0 := devs;
      Prepare(before, t);
      ghost var devs1 := devs;
      Fill(rateLimit, t);
      SameDisksTrans(devs0, devs1, devs);
      Flush(after);
      section := Close(t);
      complete := bulkCompleted && (little || !AnyDirty(devs));
      NoneDirty(devs);
    }

    /** The first flush, and the dirty cursors back to the start. */
    method Prepare(limit: nat, ghost t: Disks)
      requires Valid() && Synced(t, devs, Records())
      modifies this
      ensures Valid() && Synced(t, devs, Records()) && CleanBelow(devs) && SameDisks(old(devs), devs)
      ensures Todo() <= old(Todo()) && AtRest() == old(AtRest()) && outstanding == old(outstanding)
      ensures limit > 0 && old(queue) != [] ==> Todo() < old(Todo())
      ensures old(queue) == [] ==> queue == []
    {
      hide Synced, MarksOk, BlocksOk, DevsOk, BulkOk, SameButMarks, Dirty, CleanBelow, SameDisks, ToRead;
      ghost var devs0 := devs;
      Flush(limit);
      ResetCursors(t);
      MarksSameDisks(devs0, devs);
      SameToRead(devs0, devs) by { MarksAreBits(devs0, devs); }
    }

    /** Stage 3, with the guest stopped, the bulk phase over and every read completed. The final flush is
        not throttled. */
    method Finish(ghost t: Disks) returns (section: seq<Record>)
      requires Valid() && Synced(t, devs, Records()) && bulkCompleted && outstanding == []
      modifies this
      ensures Valid() && Section(section) && Synced(t, devs, section) && SameDisks(old(devs), devs)
      ensures Dirty(devs) == {} && Records() == [] && bulkCompleted
    {
      hide Synced, MarksOk, BlocksOk, DevsOk, BulkOk, DevBulkOk, SameButBits, SameButMarks, Dirty, CleanBelow, SameDisks, Section;
      ghost var devs0 := devs;
      Flush(|queue|);
      ResetCursors(t);
      MarksSameDisks(devs0, devs);
      var more := true;
      while more
        invariant Valid() && Synced(t, devs, Records()) && SameDisks(devs0, devs) && CleanBelow(devs)
        invariant queue == [] && outstanding == [] && bulkCompleted
        invariant !more ==> Dirty(devs) == {}
        decreases Dirty(devs), more
      {
        ghost var devs1 := devs;
        more := SaveDirtyBlock(false, t);
        BitsSameDisks(devs1, devs);
        SameDisksTrans(devs0, devs1, devs);
      }
      Note(Progress(100), t);
      section := Close(t);
      assert section + Records() == section;
    }

    /** A store of the guest between two calls. */
    method GuestWrite(name: Name, x: nat, v: Sector, ghost t: Disks)
      requires Valid() && Synced(t, devs, Records()) && name in devs && x < |devs[name].disk|
      modifies this`devs
      ensures Valid() && Synced(t, devs, Records()) && name in devs && devs.Keys == old(devs).Keys
      ensures devs[name].disk == old(devs)[name].disk[x := v]
      ensures forall n :: n in devs && n != name ==> devs[n] == old(devs)[n]
    {
      hide Synced;
      WriteKeepsSync(t, devs, Records(), name, x, v);
      var d := devs[name];
      devs := devs[name := d.(disk := d.disk[x := v], dirty := d.dirty[ChunkOf(x) := true])];
      forall n, c | n in devs && 0 <= c < |devs[n].inflight| && devs[n].inflight[c] ensures BeingRead(outstanding, n, c) {
        assert old(devs)[n].inflight[c];
      }
    }

    /** Outstanding read `i` fetches sector `j` of its chunk, as the disk holds it at this moment. */
    method Fetch(i: nat, j: nat, ghost t: Disks)
      requires Valid() && Synced(t, devs, Records())
      requires i < |outstanding| && j < CHUNK
      modifies this`outstanding
      ensures Valid() && Synced(t, devs, Records()) && |outstanding| == |old(outstanding)|
    {
      hide Synced, DevsOk, BulkOk;
      var r := outstanding[i];
      if r.chunk * CHUNK + j < |devs[r.name].disk| {
        ghost var k := |stream| + |queue| + i;
        ghost var r' := r.(buf := r.buf[j := devs[r.name].disk[r.chunk * CHUNK + j]]);
        assert Records()[k] == r;
        RefreshKeepsSync(t, devs, Records(), k, j);
        assert Records()[k := r'] == stream + queue + outstanding[i := r'];
        FetchKeepsMarks(devs, outstanding, i, r');
        outstanding := outstanding[i := r.(buf := r.buf[j := devs[r.name].disk[r.chunk * CHUNK + j]])];
      }
    }
  }

  function Unread(disk: seq<Sector>): Dev {
    var none := seq(Chunks(|disk|), _ => false);
    Dev(disk, none, none, 0, 0, false, 0)
  }

  function AllUnread(devs: Devs): Devs {
    map name | name in devs :: Unread(devs[name].disk)
  }

  /** One call's worth of records. */
  predicate Section(recs: seq<Record>) {
    recs != [] && recs[|recs| - 1] == Eos && forall i :: 0 <= i < |recs| - 1 ==> recs[i] != Eos
  }

  predicate AnyDirty(devs: Devs) {
    exists name | name in devs :: exists c | 0 <= c < |devs[name].dirty| :: devs[name].dirty[c]
  }

  lemma NoneDirty(devs: Devs)
    ensures !AnyDirty(devs) <==> Dirty(devs) == {}
  {
    forall name, c | name in devs && 0 <= c < |devs[name].dirty| && devs[name].dirty[c]
      ensures Dirty(devs) != {}
    {
      assert (name, c) in Dirty(devs);
    }
  }

  lemma FreshIsSynced(t: Disks, devs: Devs)
    requires Matches(t, devs) && forall name :: name in devs ==> |devs[name].disk| > 0
    ensures var devs' := AllUnread(devs);
      && devs'.Keys == devs.Keys && SameDisks(devs, devs')
      && DevsOk(devs') && Synced(t, devs', []) && BlocksOk(devs', []) && MarksOk(devs', []) && BulkOk(devs', false)
  {
    forall name | name in devs ensures Chunks(|devs[name].disk|) > 0 { ChunksCover(|devs[name].disk|, 0); }
  }

  lemma AllScanned(devs: Devs, order: seq<Name>)
    requires CleanBelow(devs) && DevsOk(devs) && (forall name :: name in devs <==> name in order)
    requires forall k :: 0 <= k < |order| ==> devs[order[k]].curDirty == Chunks(|devs[order[k]].disk|)
    ensures Dirty(devs) == {}
  {
    forall name, c | name in devs && 0 <= c < |devs[name].dirty| ensures !devs[name].dirty[c] {
      DevSizes(devs, name);
    }
  }

  lemma BitsRefl(a: Devs)
    ensures SameButBits(a, a)
  {
  }

  lemma BitsTrans(a: Devs, b: Devs, c: Devs)
    requires SameButBits(a, b) && SameButBits(b, c)
    ensures SameButBits(a, c)
  {
  }

  lemma BitsSizes(a: Devs, b: Devs)
    requires SameButBits(a, b)
    ensures forall n :: n in a ==> n in b && b[n].disk == a[n].disk
  {
  }

  lemma BitsSameDisks(a: Devs, b: Devs)
    requires SameButBits(a, b)
    ensures SameDisks(a, b)
  {
  }

  lemma MarksSameDisks(a: Devs, b: Devs)
    requires SameButMarks(a, b)
    ensures SameDisks(a, b)
  {
  }

  lemma DisksRefl(a: Devs)
    ensures SameDisks(a, a)
  {
  }

  lemma SameDisksTrans(a: Devs, b: Devs, c: Devs)
    requires SameDisks(a, b) && SameDisks(b, c)
    ensures SameDisks(a, c)
  {
  }

  lemma FetchKeepsMarks(devs: Devs, outstanding: seq<Record>, i: nat, r: Record)
    requires MarksOk(devs, outstanding) && BlocksOk(devs, outstanding) && i < |outstanding|
    requires r.Block? && outstanding[i].Block? && |r.buf| == CHUNK && r == outstanding[i].(buf := r.buf)
    ensures MarksOk(devs, outstanding[i := r]) && BlocksOk(devs, outstanding[i := r])
  {
    forall n, c | n in devs && 0 <= c < |devs[n].inflight| && devs[n].inflight[c]
      ensures BeingRead(outstanding[i := r], n, c)
    {
      var k :| 0 <= k < |outstanding| && outstanding[k].Block? && outstanding[k].name == n && outstanding[k].chunk == c;
      assert outstanding[i := r][k].chunk == c;
    }
  }

  lemma MarksAfterSend(devs: Devs, name: Name, d: Dev)
    requires name in devs && d.inflight == devs[name].inflight && MarksOk(devs, [])
    ensures MarksOk(devs[name := d], []) && BlocksOk(devs[name := d], [])
  {
    forall n, c | n in devs && 0 <= c < |devs[name := d][n].inflight| && devs[name := d][n].inflight[c]
      ensures BeingRead([], n, c)
    {
      assert devs[n].inflight[c];
    }
  }

  lemma ChunkOnDisk(devs: Devs, name: Name, c: nat)
    requires DevsOk(devs) && name in devs && c < |devs[name].dirty|
    ensures c * CHUNK < |devs[name].disk| && c < |devs[name].inflight|
  {
    ChunksCover(|devs[name].disk|, c);
  }

  // ---------------------------------------------------------------------------------------------
  // Records as bytes

  const DEVICE_BLOCK: nat := 1
  const EOS: nat := 2
  const PROGRESS: nat := 4
  const TWO63: nat := 0x8000_0000_0000_0000

  function Flat(buf: seq<Sector>): (b: seq<byte>)
    ensures |b| == SECTOR_SIZE * |buf|
  {
    if buf == [] then [] else buf[0] + Flat(buf[1..])
  }

  function CutUp(b: seq<byte>, n: nat): (buf: seq<Sector>)
    requires |b| == SECTOR_SIZE * n
    ensures |buf| == n
  {
    if n == 0 then [] else [b[..SECTOR_SIZE]] + CutUp(b[SECTOR_SIZE..], n - 1)
  }

  lemma {:induction false} CutFlat(buf: seq<Sector>)
    ensures CutUp(Flat(buf), |buf|) == buf
  {
    if buf != [] {
      CutFlat(buf[1..]);
      assert Flat(buf)[..SECTOR_SIZE] == buf[0] && Flat(buf)[SECTOR_SIZE..] == Flat(buf[1..]);
    }
  }

  /** Sector number and flags. */
  function Header(r: Record): nat {
    match r
    case Block(_, c, _) => c * CHUNK * SECTOR_SIZE + DEVICE_BLOCK
    case Progress(p) => p * SECTOR_SIZE + PROGRESS
    case Eos => EOS
  }

  /** The first word of each kind of record, in numbers. */
  lemma HeaderWords(name: Name, chunk: nat, buf: seq<Sector>, percent: nat)
    ensures Header(Block(name, chunk, buf)) == 0x10_0000 * chunk + 0x01
    ensures Header(Progress(percent)) == 512 * percent + 0x04 && Header(Eos) == 0x02
  {
  }

  /** `blk_send`, and the words for progress and end. The word is 64 bits wide. */
  function Encode(r: Record): seq<byte> {
    Be64(Header(r) % TWO64) + if r.Block? then EncodeId(r.name) + Flat(r.buf) else []
  }

  function EncodeAll(recs: seq<Record>): seq<byte> {
    if recs == [] then [] else Encode(recs[0]) + EncodeAll(recs[1..])
  }

  /** A block whose length byte does not wrap and whose word is not negative. */
  predicate Good(r: Record) {
    r.Block? ==> |r.name| < 256 && |r.buf| == CHUNK && Header(r) < TWO63
  }

  lemma EncodeFirst(recs: seq<Record>, i: nat)
    requires i < |recs|
    ensures EncodeAll(recs[i..]) == Encode(recs[i]) + EncodeAll(recs[i + 1..])
  {
    assert recs[i..][0] == recs[i] && recs[i..][1..] == recs[i + 1..];
  }

  /** The low bits of a header survive the cut to 64 bits. */
  lemma FlagsOf(r: Record)
    ensures var flags := Header(r) % TWO64 % SECTOR_SIZE;
      && HasFlag(flags, DEVICE_BLOCK) == r.Block? && HasFlag(flags, EOS) == r.Eos?
    ensures r.Block? && Header(r) < TWO64 ==> Header(r) % TWO64 / SECTOR_SIZE == r.chunk * CHUNK
  {
    match r
    case Block(_, c, _) => LowBits(c * CHUNK, DEVICE_BLOCK);
    case Progress(p) => LowBits(p, PROGRESS);
    case Eos => LowBits(0, EOS);
  }

  lemma LowBits(x: nat, flags: nat)
    requires flags < SECTOR_SIZE
    ensures (x * SECTOR_SIZE + flags) % TWO64 % SECTOR_SIZE == flags
    ensures x * SECTOR_SIZE + flags < TWO64 ==> (x * SECTOR_SIZE + flags) % TWO64 / SECTOR_SIZE == x
  {
    var h := x * SECTOR_SIZE + flags;
    var q := h / TWO64;
    assert h % TWO64 == SECTOR_SIZE * (x - q * 0x80_0000_0000_0000) + flags;
  }

  lemma Prefix(f: seq<byte>, at: nat, a: seq<byte>, b: seq<byte>)
    requires at <= |f| && f[at..] == a + b
    ensures at + |a| <= |f| && f[at..at + |a|] == a && f[at + |a|..] == b
  {
    assert |f[at..]| == |a| + |b|;
    assert f[at..at + |a|] == f[at..][..|a|] && f[at + |a|..] == f[at..][|a|..];
  }

  lemma WordFirst(f: seq<byte>, start: nat, r: Record, rest: seq<byte>)
    requires start <= |f| && f[start..] == Encode(r) + rest
    ensures start + 8 <= |f| && FromBigEndian(f[start..start + 8]) == Header(r) % TWO64
    ensures f[start + 8..] == (if r.Block? then EncodeId(r.name) + Flat(r.buf) else []) + rest
    ensures var flags := Header(r) % TWO64 % SECTOR_SIZE;
      && HasFlag(flags, DEVICE_BLOCK) == r.Block? && HasFlag(flags, EOS) == r.Eos?
    ensures r.Block? && Header(r) < TWO64 ==> Header(r) % TWO64 / SECTOR_SIZE == r.chunk * CHUNK
  {
    hide Be64, EncodeId, Flat, Header, FromBigEndian, HasFlag;
    var word, body := Be64(Header(r) % TWO64), if r.Block? then EncodeId(r.name) + Flat(r.buf) else [];
    assert (word + body) + rest == word + (body + rest);
    Prefix(f, start, word, body + rest);
    Be64RoundTrip(Header(r) % TWO64);
    FlagsOf(r);
  }

  lemma NameNext(f: seq<byte>, at: nat, r: Record, rest: seq<byte>)
    requires r.Block? && |r.name| < 256 && |r.buf| == CHUNK
    requires at <= |f| && f[at..] == EncodeId(r.name) + Flat(r.buf) + rest
    ensures var n := at + 1 + |r.name|;
      && n + CHUNK * SECTOR_SIZE <= |f| && f[at] as nat == |r.name| && f[at + 1..n] == r.name
      && f[n..n + CHUNK * SECTOR_SIZE] == Flat(r.buf) && f[n + CHUNK * SECTOR_SIZE..] == rest
  {
    hide Flat;
    var n, name, data := at + 1 + |r.name|, r.name, Flat(r.buf);
    assert EncodeId(name) + data + rest == [|name| as byte] + (name + (data + rest));
    Prefix(f, at, [|name| as byte], name + (data + rest));
    Prefix(f, at + 1, name, data + rest);
    Prefix(f, n, data, rest);
    assert f[at..at + 1][0] == f[at];
  }

  /** `bdrv_write` of whole sectors. */
  function Written(disk: seq<Sector>, at: nat, data: seq<Sector>): seq<Sector>
    requires at + |data| <= |disk|
  {
    disk[..at] + data + disk[at + |data|..]
  }

  lemma WriteApplies(t: Disks, r: Record, nr: nat)
    requires r.Block? && |r.buf| == CHUNK && r.name in t && 0 < |t[r.name]|
    requires nr == if |t[r.name]| - r.chunk * CHUNK < CHUNK then |t[r.name]| - r.chunk * CHUNK else CHUNK
    ensures Fits(t, r) && nr <= CHUNK && r.chunk * CHUNK + nr <= |t[r.name]|
    ensures Apply(t, r) == t[r.name := Written(t[r.name], r.chunk * CHUNK, r.buf[..nr])]
  {
  }

  lemma PlainRecord(t: Disks, r: Record)
    requires !r.Block?
    ensures Fits(t, r) && Apply(t, r) == t
  {
  }

  lemma ReplaySizes(t: Disks, recs: seq<Record>, r: Record)
    requires AllFit(t, recs)
    ensures Fits(Replay(t, recs), r) == Fits(t, r)
  {
    hide Apply;
  }

  // ---------------------------------------------------------------------------------------------
  // The receiver and a whole migration

  class Receiver {
    var disks: Disks

    /** One turn of the loop of `block_load`, on bytes that begin with the record `r`. */
    method LoadRecord(f: seq<byte>, start: nat, ghost r: Record, ghost rest: seq<byte>)
        returns (flags: nat, ok: bool, pos: nat)
      requires start <= |f| && f[start..] == Encode(r) + rest && Good(r)
      modifies this
      ensures ok <==> Fits(old(disks), r)
      ensures ok ==> disks == Apply(old(disks), r) && pos <= |f| && f[pos..] == rest
      ensures HasFlag(flags, EOS) <==> r == Eos
    {
      hide Encode, Apply, HasFlag, EncodeId, Flat, CutUp, FromBigEndian, Header;
      WordFirst(f, start, r, rest);
      var addr := FromBigEndian(f[start..start + 8]);
      flags, addr, pos := addr % SECTOR_SIZE, addr / SECTOR_SIZE, start + 8;
      if HasFlag(flags, DEVICE_BLOCK) {
        NameNext(f, pos, r, rest);
        var len := f[pos] as nat;
        var name := f[pos + 1..pos + 1 + len];
        pos := pos + 1 + len;
        if name !in disks || |disks[name]| == 0 {
          return flags, false, pos;
        }
        var total := |disks[name]|;
        var nr := if total - addr < CHUNK then total - addr else CHUNK;
        var buf := f[pos..pos + CHUNK * SECTOR_SIZE];
        pos := pos + CHUNK * SECTOR_SIZE;
        if nr < 0 {
          return flags, false, pos;
        }
        CutFlat(r.buf);
        WriteApplies(disks, r, nr);
        disks := disks[name := Written(disks[name], addr, CutUp(buf, CHUNK)[..nr])];
      } else {
        PlainRecord(disks, r);
      }
      ok := true;
    }

    /** `block_load` on the bytes of one call's records: it fails at the first block for an unknown or empty
        device or past the end of one, and otherwise leaves the records replayed. */
    method Load(f: seq<byte>, ghost section: seq<Record>) returns (ok: bool)
      requires Section(section) && f == EncodeAll(section)
      requires forall i :: 0 <= i < |section| ==> Good(section[i])
      modifies this
      ensures ok <==> AllFit(old(disks), section)
      ensures ok ==> disks == Replay(old(disks), section)
    {
      hide Replay, Apply, Encode, EncodeAll, HasFlag, Good;
      ghost var i: nat := 0;
      var pos: nat := 0;
      assert section[..0] == [] && section[0..] == section && f[0..] == f;
      ReplayNothing(disks);
      while true
        invariant 0 <= i < |section| && AllFit(old(disks), section[..i]) && disks == Replay(old(disks), section[..i])
        invariant pos <= |f| && f[pos..] == EncodeAll(section[i..])
        decreases |section| - i
      {
        ghost var r := section[i];
        EncodeFirst(section, i);
        ReplaySizes(old(disks), section[..i], r);
        var flags;
        flags, ok, pos := LoadRecord(f, pos, r, EncodeAll(section[i + 1..]));
        if !ok {
          assert !Fits(old(disks), section[i]);
          return false;
        }
        ReplaySnoc(old(disks), section[..i], r);
        assert section[..i + 1] == section[..i] + [r];
        i := i + 1;
        if HasFlag(flags, EOS) {
          assert section[..i] == section;
          return true;
        }
      }
    }
  }

  lemma ReplayNothing(t: Disks)
    ensures Replay(t, []) == t
  {
  }

  /** What may happen between two calls. */
  datatype Env = Store(name: Name, x: nat, v: Sector) | ReadCompletes | SectorRead(i: nat, j: nat)

  ghost predicate NoStore(steps: seq<Env>) { forall i :: 0 <= i < |steps| ==> !steps[i].Store? }

  function Completions(steps: seq<Env>): nat {
    if steps == [] then 0 else Completions(steps[..|steps| - 1]) + if steps[|steps| - 1].ReadCompletes? then 1 else 0
  }

  datatype Round = Round(before: seq<Env>, flushFirst: nat, rateLimit: int, flushLast: nat, little: bool)

  /** The guest stores nothing, `n` reads can complete, and there is room to send and to read one block. */
  ghost predicate Quiet(r: Round, n: nat) {
    NoStore(r.before) && Completions(r.before) >= n && r.flushFirst > 0 && r.rateLimit > 0
  }

  function Image(devs: Devs): Disks {
    map name | name in devs :: devs[name].disk
  }

  function StoreAt(u: Disks, name: Name, x: nat, v: Sector): Disks
    requires name in u && x < |u[name]|
  {
    var disk: seq<Sector> := u[name][x := v];
    u[name := disk]
  }

  /** The disks after a step of the environment: only a store changes them, and one that does not apply is
      skipped. */
  function StoreStep(u: Disks, step: Env): Disks {
    match step
    case Store(name, x, v) => if name in u && x < |u[name]| then StoreAt(u, name, x, v) else u
    case _ => u
  }

  function Stored(t: Disks, steps: seq<Env>): Disks {
    if steps == [] then t else StoreStep(Stored(t, steps[..|steps| - 1]), steps[|steps| - 1])
  }

  lemma {:induction false} StoredAppend(t: Disks, a: seq<Env>, b: seq<Env>)
    ensures Stored(t, a + b) == Stored(Stored(t, a), b)
  {
    if b == [] {
      assert a + b == a;
    } else {
      assert (a + b)[..|a + b| - 1] == a + b[..|b| - 1];
      StoredAppend(t, a, b[..|b| - 1]);
    }
  }

  /** Everything that happened before the rounds given, in order. */
  function History(rounds: seq<Round>): seq<Env> {
    if rounds == [] then [] else History(rounds[..|rounds| - 1]) + rounds[|rounds| - 1].before
  }

  lemma SameImage(a: Devs, b: Devs)
    requires SameDisks(a, b)
    ensures Image(a) == Image(b)
  {
  }

  /** The guest stores a sector, or a read fetches one, or completes. */
  method EnvStep(src: Sender, step: Env, ghost t: Disks)
    requires src.Valid() && Synced(t, src.devs, src.Records())
    modifies src
    ensures src.Valid() && Synced(t, src.devs, src.Records())
    ensures Image(src.devs) == StoreStep(old(Image(src.devs)), step)
    ensures src.bulkCompleted == old(src.bulkCompleted) && src.stream == old(src.stream)
    ensures !step.Store? ==> src.Todo() == old(src.Todo()) && src.AtRest() == old(src.AtRest())
    ensures step.ReadCompletes? && old(src.outstanding) != [] ==> |src.outstanding| == |old(src.outstanding)| - 1
    ensures !step.Store? && !(step.ReadCompletes? && old(src.outstanding) != []) ==>
              |src.outstanding| == |old(src.outstanding)|
  {
    hide Synced, MarksOk, BlocksOk, DevsOk, BulkOk, Dirty, SameButMarks, ToRead;
    match step {
      case Store(name, x, v) =>
        if name in src.devs && x < |src.devs[name].disk| {
          src.GuestWrite(name, x, v, t);
          assert Image(src.devs) == StoreAt(old(Image(src.devs)), name, x, v);
        }
      case ReadCompletes =>
        if src.outstanding != [] {
          src.CompleteRead(t);
          SameToRead(old(src.devs), src.devs) by { MarksAreBits(old(src.devs), src.devs); }
          MarksSameDisks(old(src.devs), src.devs);
          SameImage(old(src.devs), src.devs);
        }
      case SectorRead(i, j) =>
        if i < |src.outstanding| && j < CHUNK {
          src.Fetch(i, j, t);
        }
    }
  }

  method Environment(src: Sender, steps: seq<Env>, ghost t: Disks)
    requires src.Valid() && Synced(t, src.devs, src.Records())
    modifies src
    ensures src.Valid() && Synced(t, src.devs, src.Records())
    ensures Image(src.devs) == Stored(old(Image(src.devs)), steps)
    ensures src.bulkCompleted == old(src.bulkCompleted) && src.stream == old(src.stream)
    ensures NoStore(steps) ==> src.Todo() == old(src.Todo()) && src.AtRest() == old(src.AtRest())
    ensures NoStore(steps) && Completions(steps) >= old(|src.outstanding|) ==> src.outstanding == []
  {
    hide Synced, MarksOk, BlocksOk, DevsOk, BulkOk, Dirty, StoreStep, Image, ToRead;
    for k := 0 to |steps|
      invariant src.Valid() && Synced(t, src.devs, src.Records())
      invariant Image(src.devs) == Stored(old(Image(src.devs)), steps[..k])
      invariant src.bulkCompleted == old(src.bulkCompleted) && src.stream == old(src.stream)
      invariant NoStore(steps) ==> src.Todo() == old(src.Todo()) && src.AtRest() == old(src.AtRest())
      invariant NoStore(steps) ==> src.outstanding == [] || |src.outstanding| + Completions(steps[..k]) == old(|src.outstanding|)
    {
      EnvStep(src, steps[k], t);
      assert steps[..k + 1][..k] == steps[..k];
    }
    assert steps[..|steps|] == steps;
  }

  /** A section of a synchronised sender loads, and leaves the pair synchronised. */
  method Deliver(src: Sender, dst: Receiver, section: seq<Record>)
    requires src.Valid() && Section(section) && Synced(dst.disks, src.devs, section + src.Records())
    requires Addressable(dst.disks)
    modifies dst
    ensures Synced(dst.disks, src.devs, src.Records()) && Addressable(dst.disks)
  {
    LoadKeepsSync(dst.disks, src.devs, section, src.Records());
    AllGood(dst.disks, section);
    hide Synced, Replay, Encode, EncodeAll, Good;
    var f := EncodeAll(section);
    var ok := dst.Load(f, section);
  }

  /** Names have a length byte, and byte addresses are not negative as signed words. */
  ghost predicate Addressable(t: Disks) {
    forall name :: name in t ==> |name| < 256 && (|t[name]| + 1) * SECTOR_SIZE < TWO63
  }

  lemma AllGood(t: Disks, recs: seq<Record>)
    requires AllFit(t, recs) && Addressable(t)
    ensures forall i :: 0 <= i < |recs| ==> Good(recs[i])
    ensures Addressable(Replay(t, recs))
  {
    forall i | 0 <= i < |recs|
      ensures Good(recs[i])
    {
      assert Fits(t, recs[i]);
    }
    hide Apply;
    assert SameSizes(t, Replay(t, recs));
  }

  /** Stage 1, any number of rounds of stage 2, and, if the last of them reported completion, the drain that
      stopping the guest brings and stage 3: then every disk of the source is on the destination as the
      guest last wrote it. If the guest stores nothing and there is always room for a block, completion is
      reported within a number of rounds that the number of chunks bounds. */
  method Migrate(src: Sender, dst: Receiver, rounds: seq<Round>, last: seq<Env>) returns (complete: bool)
    requires |src.junk| == CHUNK && (forall name :: name in src.devs <==> name in src.order)
    requires forall name :: name in src.devs ==> |src.devs[name].disk| > 0
    requires src.queue == [] && src.outstanding == [] && src.stream == []
    requires Matches(dst.disks, src.devs) && Addressable(dst.disks)
    modifies src, dst
    ensures complete ==> forall name :: name in src.devs ==> name in dst.disks && dst.disks[name] == src.devs[name].disk
    ensures complete ==> Image(src.devs) == Stored(old(Image(src.devs)), History(rounds) + last)
    ensures complete ==> src.submitted == src.readDone == 0 && src.transferred == src.issued
    ensures var m := 2 * |AllChunks(old(src.devs))| + 1;
      (forall k :: 0 <= k < |rounds| ==> Quiet(rounds[k], m)) && |rounds| > m ==> complete
  {
    hide Synced, MarksOk, BlocksOk, DevsOk, BulkOk, Dirty, SameDisks, Section, Matches, Image, SameButMarks, Addressable, ToRead, AllChunks;
    ghost var devs0 := src.devs;
    var section := src.Start(dst.disks);
    SameImage(devs0, src.devs);
    FreshWork(devs0);
    Deliver(src, dst, section);
    complete := AllRounds(src, dst, rounds);
    if !complete {
      return;
    }
    Environment(src, last, dst.disks);
    StoredAppend(Image(devs0), History(rounds), last);
    ghost var devs1 := src.devs;
    src.DrainAll(dst.disks);
    MarksSameDisks(devs1, src.devs);
    ghost var devs2 := src.devs;
    section := src.Finish(dst.disks);
    SameImage(devs1, devs2);
    SameImage(devs2, src.devs);
    assert section + src.Records() == section;
    Deliver(src, dst, section);
    AllEqual(dst.disks, src.devs);
  }

  /** The calls of stage 2, with what happens before each. */
  method AllRounds(src: Sender, dst: Receiver, rounds: seq<Round>) returns (complete: bool)
    requires src.Valid() && Synced(dst.disks, src.devs, src.Records()) && Addressable(dst.disks)
    modifies src, dst
    ensures src.Valid() && Synced(dst.disks, src.devs, src.Records()) && Addressable(dst.disks)
    ensures Image(src.devs) == Stored(old(Image(src.devs)), History(rounds))
    ensures complete ==> src.bulkCompleted
    ensures var m := old(src.Todo());
      (forall k :: 0 <= k < |rounds| ==> Quiet(rounds[k], m)) && |rounds| > m ==> complete
  {
    hide Synced, MarksOk, BlocksOk, DevsOk, BulkOk, Dirty, Image, Addressable, ToRead;
    ghost var image0, m := Image(src.devs), src.Todo();
    complete := false;
    for k := 0 to |rounds|
      invariant src.Valid() && Synced(dst.disks, src.devs, src.Records()) && Addressable(dst.disks)
      invariant Image(src.devs) == Stored(image0, History(rounds[..k]))
      invariant complete ==> src.bulkCompleted
      invariant k > 0 && src.AtRest() ==> complete
      invariant (forall i :: 0 <= i < k ==> Quiet(rounds[i], m)) ==> src.AtRest() || src.Todo() + k <= m
    {
      complete := OneRound(src, dst, rounds[k]);
      StoredAppend(image0, History(rounds[..k]), rounds[k].before);
      assert rounds[..k + 1][..k] == rounds[..k];
    }
    assert rounds[..|rounds|] == rounds;
  }

  /** What happens before a call of stage 2, the call, and the loading of its section. */
  method OneRound(src: Sender, dst: Receiver, round: Round) returns (complete: bool)
    requires src.Valid() && Synced(dst.disks, src.devs, src.Records()) && Addressable(dst.disks)
    modifies src, dst
    ensures src.Valid() && Synced(dst.disks, src.devs, src.Records()) && Addressable(dst.disks)
    ensures Image(src.devs) == Stored(old(Image(src.devs)), round.before)
    ensures complete <==> src.bulkCompleted && (round.little || Dirty(src.devs) == {})
    ensures NoStore(round.before) && old(src.AtRest()) ==> src.AtRest()
    ensures Quiet(round, old(|src.outstanding|)) ==> src.Todo() < old(src.Todo()) || src.AtRest()
  {
    hide Synced, MarksOk, BlocksOk, DevsOk, BulkOk, Dirty, SameDisks, Section, Matches, Image, Addressable, ToRead;
    Environment(src, round.before, dst.disks);
    ghost var devs := src.devs;
    var section;
    section, complete := src.Iterate(round.flushFirst, round.rateLimit, round.flushLast, round.little, dst.disks);
    SameImage(devs, src.devs);
    Deliver(src, dst, section);
  }

  lemma AllEqual(t: Disks, devs: Devs)
    requires Synced(t, devs, []) && Dirty(devs) == {} && BulkOk(devs, true)
    ensures forall name :: name in devs ==> name in t && t[name] == devs[name].disk
  {
    forall name | name in devs ensures name in t && t[name] == devs[name].disk {
      forall c | 0 <= c < |devs[name].dirty| ensures !devs[name].dirty[c] {
        assert (name, c) !in Dirty(devs);
      }
      CleanMeansEqual(t, devs, name);
    }
  }
}
