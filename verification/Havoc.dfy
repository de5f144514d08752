/** The havoc stage: the score that sets its length, the block lengths it draws, the stacked edits on a
    working buffer, and the rule that doubles a round that keeps finding paths. Random numbers are
    arbitrary; `UR` reduces one below its limit. */
module Havoc {
  import opened Wire

  const HAVOC_BLK_SMALL: nat := 32
  const HAVOC_BLK_MEDIUM: nat := 128
  const HAVOC_BLK_LARGE: nat := 1500
  const HAVOC_MAX_MULT: nat := 16
  const HAVOC_CYCLES: nat := 256
  const HAVOC_CYCLES_INIT: nat := 1024
  const HAVOC_MIN: nat := 16
  const SPLICE_HAVOC: nat := 32
  const MAX_FILE: nat := 1024 * 1024

  function UR(r: nat, limit: nat): (v: nat)
    requires limit > 0
    ensures v < limit
  {
    r % limit
  }

  function Min(a: nat, b: nat): nat { if a < b then a else b }

  function Max(a: nat, b: nat): nat { if a < b then b else a }

  /** What the block lengths depend on: the queue cycle and whether it is older than ten minutes. */
  datatype Session = Session(queueCycle: nat, runOver10m: bool)

  /** `choose_block_len`: a length from 1 up to the limit. */
  function BlockLen(limit: nat, ses: Session, r1: nat, r2: nat): (len: nat)
    requires limit > 0 && ses.queueCycle > 0
    ensures 1 <= len <= limit && len <= HAVOC_BLK_LARGE
  {
    var rlim := if ses.runOver10m then Min(ses.queueCycle, 3) else 1;
    var size := UR(r1, rlim);
    var lo := if size == 0 then 1 else if size == 1 then HAVOC_BLK_SMALL else HAVOC_BLK_MEDIUM;
    var hi := if size == 0 then HAVOC_BLK_SMALL else if size == 1 then HAVOC_BLK_MEDIUM else HAVOC_BLK_LARGE;
    var minValue := if lo >= limit then 1 else lo;
    minValue + UR(r2, Min(hi, limit) - minValue + 1)
  }

  /** The lengths that can come out for size class `r1`, whose bounds are 1 to 32, 32 to 128 and 128 to 1500: all those
      up to the limit, from the class's lower bound on if that is below the limit. Before the third queue cycle, or
      in the first ten minutes, the larger classes do not occur. */
  lemma BlockLenReaches(limit: nat, ses: Session, r1: nat, len: nat)
    requires limit > 0 && ses.queueCycle > 0
    ensures var size := UR(r1, if ses.runOver10m then Min(ses.queueCycle, 3) else 1);
      var lo, hi := if size == 0 then 1 else if size == 1 then 32 else 128, if size == 0 then 32 else if size == 1 then 128 else 1500;
      (exists r2 :: BlockLen(limit, ses, r1, r2) == len) <==> (if lo < limit then lo else 1) <= len <= Min(hi, limit)
  {
    var size := UR(r1, if ses.runOver10m then Min(ses.queueCycle, 3) else 1);
    var lo := if size == 0 then 1 else if size == 1 then 32 else 128;
    var hi := if size == 0 then 32 else if size == 1 then 128 else 1500;
    var least := if lo < limit then lo else 1;
    hide UR;
    if least <= len <= Min(hi, limit) {
      URSmall(len - least, Min(hi, limit) - least + 1);
      assert BlockLen(limit, ses, r1, len - least) == len;
    }
  }

  lemma URSmall(r: nat, limit: nat)
    requires r < limit
    ensures UR(r, limit) == r
  {
  }

  /** What the score depends on, besides the two averages. */
  datatype Entry = Entry(execUs: nat, bitmapSize: nat, handicap: nat, depth: nat)

  /** Base score by execution time against the average. */
  function Speed(us: real, avg: real): (score: nat)
    ensures 10 <= score <= 300
  {
    if us * 0.1 > avg then 10
    else if us * 0.25 > avg then 25
    else if us * 0.5 > avg then 50
    else if us * 0.75 > avg then 75
    else if us * 4.0 < avg then 300
    else if us * 3.0 < avg then 200
    else if us * 2.0 < avg then 150
    else 100
  }

  function Sized(score: nat, size: real, avg: real): nat {
    if size * 0.3 > avg then score * 3
    else if size * 0.5 > avg then score * 2
    else if size * 0.75 > avg then score * 3 / 2
    else if size * 3.0 < avg then score / 4
    else if size * 2.0 < avg then score / 2
    else if size * 1.5 < avg then score * 3 / 4
    else score
  }

  function Deepened(score: nat, depth: nat): nat {
    if depth <= 3 then score else if depth <= 7 then score * 2 else if depth <= 13 then score * 3
    else if depth <= 25 then score * 4 else score * 5
  }

  function Delayed(score: nat, handicap: nat): nat {
    if handicap >= 4 then score * 4 else if handicap > 0 then score * 2 else score
  }

  /** The score of an entry, given the two averages. */
  function Score(q: Entry, avgUs: nat, avgSize: nat): (score: nat)
    ensures 2 <= score <= HAVOC_MAX_MULT * 100
  {
    var score := Sized(Speed(q.execUs as real, avgUs as real), q.bitmapSize as real, avgSize as real);
    Min(Deepened(Delayed(score, q.handicap), q.depth), HAVOC_MAX_MULT * 100)
  }

  lemma SpeedFalls(us: real, us': real, avg: real)
    requires 0.0 <= us <= us' && 0.0 <= avg
    ensures Speed(us, avg) >= Speed(us', avg)
  {
  }

  lemma SizedGrows(score: nat, score': nat, size: real, size': real, avg: real)
    requires score <= score' && 0.0 <= size <= size' && 0.0 <= avg
    ensures Sized(score, size, avg) <= Sized(score', size', avg)
  {
  }

  /** An entry that is no slower, covers no less, came no earlier and lies no shallower never scores less. */
  lemma BetterScoresHigher(q: Entry, q': Entry, avgUs: nat, avgSize: nat)
    requires q'.execUs <= q.execUs && q.bitmapSize <= q'.bitmapSize
    requires q.handicap <= q'.handicap && q.depth <= q'.depth
    ensures Score(q, avgUs, avgSize) <= Score(q', avgUs, avgSize)
  {
    hide Speed, Sized;
    SpeedFalls(q'.execUs as real, q.execUs as real, avgUs as real);
    SizedGrows(Speed(q.execUs as real, avgUs as real), Speed(q'.execUs as real, avgUs as real),
               q.bitmapSize as real, q'.bitmapSize as real, avgSize as real);
  }

  /** An entry of average speed and size scores 100; a slow and small one scores 2, and a fast, large and deep one 1600. */
  lemma ScoreLandmarks(avgUs: nat, avgSize: nat)
    requires avgUs > 0 && avgSize > 3
    ensures Score(Entry(avgUs, avgSize, 0, 0), avgUs, avgSize) == 100
    ensures Score(Entry(11 * avgUs, 1, 0, 0), avgUs, avgSize) == 2
    ensures Score(Entry(0, 4 * avgSize, 4, 26), avgUs, avgSize) == 1600
  {
  }

  /** `calculate_score`, with its fractions as reals. It also uses up some of the handicap. */
  method CalculateScore(q: Entry, totalCalUs: nat, calCycles: nat, totalBitmap: nat, bitmapEntries: nat)
      returns (score: nat, handicap: nat)
    requires calCycles > 0 && bitmapEntries > 0
    ensures score == Score(q, totalCalUs / calCycles, totalBitmap / bitmapEntries)
    ensures 2 <= score <= HAVOC_MAX_MULT * 100
    ensures handicap == if q.handicap >= 4 then q.handicap - 4 else if q.handicap > 0 then q.handicap - 1 else 0
  {
    var avgUs, avgSize := (totalCalUs / calCycles) as real, (totalBitmap / bitmapEntries) as real;
    score := Sized(Speed(q.execUs as real, avgUs), q.bitmapSize as real, avgSize);
    handicap := q.handicap;
    if handicap >= 4 { score, handicap := score * 4, handicap - 4; }
    else if handicap > 0 { score, handicap := score * 2, handicap - 1; }
    score := Deepened(score, q.depth);
    if score > HAVOC_MAX_MULT * 100 { score := HAVOC_MAX_MULT * 100; }
  }

  // ---------------------------------------------------------------------------------------------
  // Stacked edits

  const ARITH_MAX: nat := 35

  const INTERESTING_8: seq<int> := [-128, -1, 0, 1, 16, 32, 64, 100, 127]
  const INTERESTING_16: seq<int> := INTERESTING_8 + [-32768, -129, 128, 255, 256, 512, 1000, 1024, 4096, 32767]
  const INTERESTING_32: seq<int> :=
    INTERESTING_16 + [-2147483648, -100663046, -32769, 32768, 65535, 65536, 100663045, 2147483647]

  /** One edit with the random numbers it draws. `Interest` and `Arith` work on one, two or four bytes, in
      either byte order. */
  datatype Op =
    | Flip(bit: nat)
    | Interest(width: nat, big: bool, at: nat, pick: nat)
    | Arith(width: nat, big: bool, at: nat, add: bool, num: nat)
    | XorByte(at: nat, value: nat)
    | Delete(r1: nat, r2: nat, from: nat)
    | Clone(r1: nat, r2: nat, from: nat, to: nat, copy: bool, fill: byte)
    | Overwrite(r1: nat, r2: nat, from: nat, to: nat, copy: bool, fill: byte)
    | OverwriteExtra(extra: seq<byte>, at: nat)
    | InsertExtra(extra: seq<byte>, at: nat)

  predicate OpOk(op: Op) {
    op.Interest? || op.Arith? ==> op.width == 1 || op.width == 2 || op.width == 4
  }

  // Bytes and words

  /** Exclusive or of the `n` low bits of two numbers. */
  function Xor(a: nat, b: nat, n: nat): (x: nat)
    ensures x < Pow2(n)
  {
    if n == 0 then 0 else 2 * Xor(a / 2, b / 2, n - 1) + (a + b) % 2
  }

  function Reversed(s: seq<byte>): (r: seq<byte>)
    ensures |r| == |s|
  {
    seq(|s|, i requires 0 <= i < |s| => s[|s| - 1 - i])
  }

  /** The number that bytes stand for, and back. */
  function Word(x: seq<byte>, big: bool): nat { FromBigEndian(if big then x else Reversed(x)) }

  function Bytes(v: int, width: nat, big: bool): (x: seq<byte>)
    ensures |x| == width
  {
    var b := BigEndian(v % Pow256(width), width);
    if big then b else Reversed(b)
  }

  lemma WordOfBytes(v: int, width: nat, big: bool)
    ensures Word(Bytes(v, width, big), big) == v % Pow256(width)
  {
    hide BigEndian, FromBigEndian, Pow256, Reversed;
    BigEndianRoundTrip(v % Pow256(width), width);
    ReversedTwice(BigEndian(v % Pow256(width), width));
  }

  lemma ReversedTwice(s: seq<byte>)
    ensures Reversed(Reversed(s)) == s
  {
  }

  function Table(width: nat): (t: seq<int>)
    ensures |t| > 0
  {
    if width == 1 then INTERESTING_8 else if width == 2 then INTERESTING_16 else INTERESTING_32
  }

  /** The bytes that an addition or subtraction of 1 to 35 leaves, in the order chosen. */
  function AddTo(x: seq<byte>, big: bool, add: bool, num: nat): (y: seq<byte>)
    ensures |y| == |x|
  {
    var n := 1 + UR(num, ARITH_MAX);
    Bytes(if add then Word(x, big) + n else Word(x, big) - n, |x|, big)
  }

  function Splice(s: seq<byte>, at: nat, x: seq<byte>): seq<byte>
    requires at <= |s|
  {
    s[..at] + x + s[at..]
  }

  function Cut(s: seq<byte>, at: nat, len: nat): seq<byte>
    requires at + len <= |s|
  {
    s[..at] + s[at + len..]
  }

  function Put(s: seq<byte>, at: nat, x: seq<byte>): seq<byte>
    requires at + |x| <= |s|
  {
    s[..at] + x + s[at + |x|..]
  }

  function XorWith(b: byte, m: nat): byte {
    assert Pow2(8) == 256 by { Pow2Of8(); }
    Xor(b as nat, m, 8) as byte
  }

  /** Bit `k` of a byte, from the most significant, is inverted. */
  function FlipBit(b: byte, k: nat): byte
    requires k < 8
  {
    XorWith(b, Pow2(7 - k))
  }

  /** Exclusive or with a value from 1 to 255. */
  function Xored(b: byte, value: nat): byte { XorWith(b, 1 + UR(value, 255)) }

  lemma Pow2Of8()
    ensures Pow2(8) == 256
  {
    assert Pow2(4) == 16;
    assert Pow2(6) == 64;
  }

  /** The bytes a clone or an overwrite puts in: a block of the file, or one value repeated. */
  function Block(s: seq<byte>, from: nat, len: nat, copy: bool, fill: byte): (x: seq<byte>)
    requires len <= |s|
    ensures |x| == len
  {
    if copy then
      var f := UR(from, |s| - len + 1);
      s[f..f + len]
    else seq(len, _ => fill)
  }

  /** The file after an edit: never empty, never above the size limit. */
  function Edited(s: seq<byte>, ses: Session, op: Op): (t: seq<byte>)
    requires 1 <= |s| <= MAX_FILE && ses.queueCycle > 0 && OpOk(op)
    ensures 1 <= |t| <= MAX_FILE
  {
    hide AddTo, Bytes, FlipBit, Xored, Table;
    match op
    case Flip(bit) =>
      var b := UR(bit, 8 * |s|);
      s[b / 8 := FlipBit(s[b / 8], b % 8)]
    case Interest(width, big, at, pick) =>
      if |s| < width then s
      else Put(s, UR(at, |s| - width + 1), Bytes(Table(width)[UR(pick, |Table(width)|)], width, big))
    case Arith(width, big, at, add, num) =>
      if |s| < width then s
      else
        var p := UR(at, |s| - width + 1);
        Put(s, p, AddTo(s[p..p + width], big, add, num))
    case XorByte(at, value) =>
      var p := UR(at, |s|);
      s[p := Xored(s[p], value)]
    case Delete(r1, r2, from) =>
      if |s| < 2 then s
      else
        var len := BlockLen(|s| - 1, ses, r1, r2);
        Cut(s, UR(from, |s| - len + 1), len)
    case Clone(r1, r2, from, to, copy, fill) =>
      if |s| + HAVOC_BLK_LARGE >= MAX_FILE then s
      else Splice(s, UR(to, |s|), Block(s, from, BlockLen(|s|, ses, r1, r2), copy, fill))
    case Overwrite(r1, r2, from, to, copy, fill) =>
      if |s| < 2 then s
      else
        var len := BlockLen(|s| - 1, ses, r1, r2);
        Put(s, UR(to, |s| - len + 1), Block(s, from, len, copy, fill))
    case OverwriteExtra(extra, at) => if |extra| > |s| then s else Put(s, UR(at, |s| - |extra| + 1), extra)
    case InsertExtra(extra, at) => if |s| + |extra| >= MAX_FILE then s else Splice(s, UR(at, |s|), extra)
  }

  lemma {:induction false} Pow2Grows(k: nat, n: nat)
    requires k < n
    ensures 0 < Pow2(k) < Pow2(n)
  {
    if k > 0 { Pow2Grows(k - 1, n - 1); } else if n > 1 { Pow2Grows(0, n - 1); }
  }

  lemma {:induction false} XorChanges(a: nat, m: nat, n: nat)
    requires a < Pow2(n) && 0 < m < Pow2(n)
    ensures Xor(a, m, n) != a
  {
    if m % 2 == 0 {
      XorChanges(a / 2, m / 2, n - 1);
    }
  }

  lemma AddChanges(x: seq<byte>, big: bool, add: bool, num: nat)
    requires |x| > 0
    ensures AddTo(x, big, add, num) != x
  {
    hide Word, Bytes, UR, Pow256;
    var v, n, m := Word(x, big), 1 + UR(num, ARITH_MAX), Pow256(|x|);
    var w := if add then v + n else v - n;
    WordOfBytes(w, |x|, big);
    WordFits(x, big);
    Pow256Large(|x|);
    OtherMod(v, w, n, m);
  }

  lemma Pow256Large(k: nat)
    requires k > 0
    ensures Pow256(k) >= 256
  {
    assert Pow256(k) == 256 * Pow256(k - 1);
  }

  lemma OtherMod(v: nat, w: int, n: nat, m: nat)
    requires v < m && 0 < n < m && (w == v + n || w == v - n)
    ensures w % m != v
  {
    DivIs(v, 0, v, m);
    if w == v + n { ShiftedMod(v, n, m); } else { ShiftedMod(w, n, m); }
  }

  lemma ShiftedMod(v: int, n: nat, m: nat)
    requires 0 < n < m
    ensures (v + n) % m != v % m
  {
    hide Pow256;
    var q, r := v / m, v % m;
    assert v == q * m + r;
    if r + n < m {
      DivIs(v + n, q, r + n, m);
    } else {
      assert v + n == (q + 1) * m + (r + n - m);
      DivIs(v + n, q + 1, r + n - m, m);
    }
  }

  lemma DivIs(x: int, q: int, r: int, m: nat)
    requires 0 <= r < m && x == q * m + r
    ensures x % m == r
  {
    var d := x / m - q;
    assert x == (x / m) * m + x % m;
    assert d * m == r - x % m;
    if d > 0 { Least(d, m); } else if d < 0 { Least(-d, m); }
  }

  lemma Least(d: int, m: nat)
    requires d >= 1
    ensures d * m >= m
  {
  }

  lemma {:induction false} FromBigEndianFits(x: seq<byte>)
    ensures FromBigEndian(x) < Pow256(|x|)
  {
    if x != [] { FromBigEndianFits(x[..|x| - 1]); }
  }

  lemma WordFits(x: seq<byte>, big: bool)
    ensures Word(x, big) < Pow256(|x|)
  {
    FromBigEndianFits(if big then x else Reversed(x));
  }

  lemma XorWithChanges(b: byte, m: nat)
    requires 0 < m < 256
    ensures XorWith(b, m) != b
  {
    Pow2Of8();
    XorChanges(b as nat, m, 8);
  }

  lemma PutChanges(s: seq<byte>, at: nat, x: seq<byte>)
    requires at + |x| <= |s| && x != s[at..at + |x|]
    ensures |Put(s, at, x)| == |s| && Put(s, at, x) != s
  {
    assert Put(s, at, x)[at..at + |x|] == x;
  }

  lemma SetChanges(s: seq<byte>, at: nat, b: byte)
    requires at < |s| && b != s[at]
    ensures s[at := b] != s
  {
    assert s[at := b][at] == b;
  }

  /** The bit flip, the additions and subtractions and the exclusive or are never wasted: wherever they
      apply, the file changes. */
  lemma NeverANoOp(s: seq<byte>, ses: Session, op: Op)
    requires 1 <= |s| <= MAX_FILE && ses.queueCycle > 0 && OpOk(op)
    requires op.Flip? || op.XorByte? || (op.Arith? && op.width <= |s|)
    ensures |Edited(s, ses, op)| == |s| && Edited(s, ses, op) != s
  {
    hide AddTo, XorWith, Put, UR, Pow2, BlockLen, Bytes, Table, Block, Cut, Splice;
    match op {
      case Flip(bit) =>
        var b := UR(bit, 8 * |s|);
        Pow2Grows(7 - b % 8, 8);
        Pow2Of8();
        XorWithChanges(s[b / 8], Pow2(7 - b % 8));
        SetChanges(s, b / 8, FlipBit(s[b / 8], b % 8));
      case XorByte(at, value) =>
        var p := UR(at, |s|);
        XorWithChanges(s[p], 1 + UR(value, 255));
        SetChanges(s, p, Xored(s[p], value));
      case Arith(width, big, at, add, num) =>
        var p := UR(at, |s| - width + 1);
        AddChanges(s[p..p + width], big, add, num);
        PutChanges(s, p, AddTo(s[p..p + width], big, add, num));
    }
  }

  // What the edits do, said of the bytes

  /** `t` is `s` except for the `n` bytes at `at`. */
  ghost predicate SameAround(s: seq<byte>, t: seq<byte>, at: nat, n: nat) {
    at + n <= |s| == |t| && t[..at] == s[..at] && t[at + n..] == s[at + n..]
  }

  function Bit(x: nat, k: nat): nat { x / Pow2(k) % 2 }

  lemma {:induction false} XorBits(a: nat, b: nat, n: nat, k: nat)
    requires k < n
    ensures Bit(Xor(a, b, n), k) == (Bit(a, k) + Bit(b, k)) % 2
  {
    hide Bit;
    XorHalves(a, b, n);
    if k > 0 {
      XorBits(a / 2, b / 2, n - 1, k - 1);
      HalfBit(a, k);
      HalfBit(b, k);
      HalfBit(Xor(a, b, n), k);
    } else {
      LowBit(a);
      LowBit(b);
      LowBit(Xor(a, b, n));
    }
  }

  lemma XorHalves(a: nat, b: nat, n: nat)
    requires n > 0
    ensures Xor(a, b, n) / 2 == Xor(a / 2, b / 2, n - 1) && Xor(a, b, n) % 2 == (a % 2 + b % 2) % 2
  {
  }

  lemma LowBit(a: nat)
    ensures Bit(a, 0) == a % 2
  {
    assert Pow2(0) == 1;
  }

  lemma HalfBit(a: nat, k: nat)
    requires k > 0
    ensures Bit(a, k) == Bit(a / 2, k - 1)
  {
    HalfOf(a, Pow2(k - 1));
  }

  lemma HalfOf(a: nat, p: nat)
    requires p > 0
    ensures a / (2 * p) == a / 2 / p
  {
    var q := a / 2 / p;
    DivBounds(a / 2, p);
    Twice(q, p);
    QuotientIs(a, 2 * p, q);
  }

  lemma Twice(q: int, p: int)
    ensures q * (2 * p) == 2 * (q * p)
  {
  }

  lemma HalfPower(j: nat)
    ensures Pow2(j) / 2 == (if j == 0 then 0 else Pow2(j - 1)) && Pow2(j) % 2 == if j == 0 then 1 else 0
  {
  }

  lemma {:induction false} BitOfPower(j: nat, k: nat)
    ensures Bit(Pow2(j), k) == if j == k then 1 else 0
    decreases k
  {
    hide Bit, Pow2;
    HalfPower(j);
    if k > 0 {
      HalfBit(Pow2(j), k);
      if j > 0 { BitOfPower(j - 1, k - 1); } else { SmallBit(k - 1); }
    } else {
      LowBit(Pow2(j));
    }
  }

  lemma SmallBit(k: nat)
    ensures Bit(0, k) == 0
  {
    QuotientIs(0, Pow2(k), 0);
  }

  /** A bit flip inverts one bit of one byte, counted from its most significant bit. */
  lemma FlipMeans(s: seq<byte>, ses: Session, r: nat, k: nat)
    requires 1 <= |s| <= MAX_FILE && ses.queueCycle > 0 && k < 8
    ensures var t, b := Edited(s, ses, Flip(r)), UR(r, 8 * |s|);
      && SameAround(s, t, b / 8, 1)
      && (Bit(t[b / 8] as nat, k) == Bit(s[b / 8] as nat, k) <==> k != 7 - b % 8)
  {
    hide Xor, Pow2, Bit;
    var b := UR(r, 8 * |s|);
    Pow2Of8();
    XorBits(s[b / 8] as nat, Pow2(7 - b % 8), 8, k);
    BitOfPower(7 - b % 8, k);
    BitIsBit(s[b / 8] as nat, k);
  }

  lemma BitIsBit(x: nat, k: nat)
    ensures Bit(x, k) < 2
  {
  }

  /** An interesting value reads back, in the byte order chosen, from where it was written. */
  lemma InterestMeans(s: seq<byte>, ses: Session, op: Op)
    requires 1 <= |s| <= MAX_FILE && ses.queueCycle > 0 && OpOk(op) && op.Interest? && op.width <= |s|
    ensures var t, p, v := Edited(s, ses, op), UR(op.at, |s| - op.width + 1), Table(op.width)[UR(op.pick, |Table(op.width)|)];
      SameAround(s, t, p, op.width) && Word(t[p..p + op.width], op.big) == v % Pow256(op.width)
  {
    hide Word, Bytes, Table, Pow256, Put, UR;
    var w, p := op.width, UR(op.at, |s| - op.width + 1);
    var v := Table(w)[UR(op.pick, |Table(w)|)];
    PutMeans(s, p, Bytes(v, w, op.big));
    WordOfBytes(v, w, op.big);
  }

  /** So does a sum or a difference of up to 35. */
  lemma ArithMeans(s: seq<byte>, ses: Session, op: Op) returns (n: nat)
    requires 1 <= |s| <= MAX_FILE && ses.queueCycle > 0 && OpOk(op) && op.Arith? && op.width <= |s|
    ensures var t, p := Edited(s, ses, op), UR(op.at, |s| - op.width + 1);
      && SameAround(s, t, p, op.width) && 1 <= n <= 35
      && var x, y := Word(s[p..p + op.width], op.big), Word(t[p..p + op.width], op.big);
         y == (if op.add then x + n else x - n) % Pow256(op.width)
  {
    hide Word, Bytes, Pow256, Put, UR;
    var w, p := op.width, UR(op.at, |s| - op.width + 1);
    var x := s[p..p + w];
    n := 1 + UR(op.num, ARITH_MAX);
    PutMeans(s, p, AddTo(x, op.big, op.add, op.num));
    WordOfBytes(if op.add then Word(x, op.big) + n else Word(x, op.big) - n, w, op.big);
  }

  lemma PutMeans(s: seq<byte>, at: nat, x: seq<byte>)
    requires at + |x| <= |s|
    ensures SameAround(s, Put(s, at, x), at, |x|) && Put(s, at, x)[at..at + |x|] == x
  {
  }

  predicate StandsAt(s: seq<byte>, f: nat, x: seq<byte>) { f + |x| <= |s| && s[f..f + |x|] == x }

  /** The bytes put in by a clone or an overwrite stand in the file already, or are all the same. */
  ghost predicate FromFile(s: seq<byte>, x: seq<byte>, copy: bool, fill: byte) {
    if copy then exists f :: StandsAt(s, f, x) else forall i :: 0 <= i < |x| ==> x[i] == fill
  }

  lemma BlockFrom(s: seq<byte>, from: nat, len: nat, copy: bool, fill: byte)
    requires len <= |s|
    ensures FromFile(s, Block(s, from, len, copy, fill), copy, fill)
  {
    if copy { assert StandsAt(s, UR(from, |s| - len + 1), Block(s, from, len, copy, fill)); }
  }

  /** Deletion leaves out one block. */
  lemma DeleteMeans(s: seq<byte>, ses: Session, op: Op) returns (at: nat, n: nat)
    requires 2 <= |s| <= MAX_FILE && ses.queueCycle > 0 && op.Delete?
    ensures 0 < n < |s| && at + n <= |s| && Edited(s, ses, op) == s[..at] + s[at + n..]
  {
    hide UR, BlockLen;
    n := BlockLen(|s| - 1, ses, op.r1, op.r2);
    at := UR(op.from, |s| - n + 1);
  }

  /** A clone puts a block in, if there is room for the largest one. */
  lemma CloneMeans(s: seq<byte>, ses: Session, op: Op) returns (at: nat, x: seq<byte>)
    requires 1 <= |s| && |s| + HAVOC_BLK_LARGE < MAX_FILE && ses.queueCycle > 0 && op.Clone?
    ensures at < |s| && x != [] && FromFile(s, x, op.copy, op.fill) && Edited(s, ses, op) == s[..at] + x + s[at..]
  {
    hide UR, BlockLen, Block, FromFile;
    var n := BlockLen(|s|, ses, op.r1, op.r2);
    BlockFrom(s, op.from, n, op.copy, op.fill);
    at, x := UR(op.to, |s|), Block(s, op.from, n, op.copy, op.fill);
  }

  /** An overwrite replaces a block by one of the same length. */
  lemma OverwriteMeans(s: seq<byte>, ses: Session, op: Op) returns (at: nat, x: seq<byte>)
    requires 2 <= |s| <= MAX_FILE && ses.queueCycle > 0 && op.Overwrite?
    ensures 0 < |x| < |s| && at + |x| <= |s| && FromFile(s, x, op.copy, op.fill)
    ensures Edited(s, ses, op) == s[..at] + x + s[at + |x|..]
  {
    hide UR, BlockLen, Block, FromFile;
    var n := BlockLen(|s| - 1, ses, op.r1, op.r2);
    BlockFrom(s, op.from, n, op.copy, op.fill);
    at, x := UR(op.to, |s| - n + 1), Block(s, op.from, n, op.copy, op.fill);
  }

  function EditedAll(s: seq<byte>, ses: Session, ops: seq<Op>): (t: seq<byte>)
    requires 1 <= |s| <= MAX_FILE && ses.queueCycle > 0 && forall i :: 0 <= i < |ops| ==> OpOk(ops[i])
    ensures 1 <= |t| <= MAX_FILE
  {
    if ops == [] then s else Edited(EditedAll(s, ses, ops[..|ops| - 1]), ses, ops[|ops| - 1])
  }

  /** The working buffer: `tempLen` of its bytes count. */
  class Buffer {
    var out: array<byte>
    var tempLen: nat
    const ses: Session

    ghost predicate Valid()
      reads this
    {
      1 <= tempLen <= MAX_FILE && tempLen <= out.Length && ses.queueCycle > 0
    }

    ghost function Contents(): seq<byte>
      reads this, out
      requires tempLen <= out.Length
    {
      out[..tempLen]
    }

    constructor (input: seq<byte>, ses: Session)
      requires 1 <= |input| <= MAX_FILE && ses.queueCycle > 0
      ensures Valid() && fresh(out) && Contents() == input && this.ses == ses
    {
      this.ses := ses;
      out := new byte[|input|](i requires 0 <= i < |input| => input[i]);
      tempLen := |input|;
    }

    /** `memcpy` and `memset` into the buffer. */
    method Store(at: nat, x: seq<byte>)
      requires Valid() && at + |x| <= tempLen
      modifies out
      ensures Contents() == Put(old(Contents()), at, x)
    {
      ghost var before := out[..];
      var i := 0;
      while i < |x|
        invariant 0 <= i <= |x|
        invariant forall k :: 0 <= k < out.Length ==> out[k] == if at <= k < at + i then x[k - at] else before[k]
      {
        out[at + i] := x[i];
        i := i + 1;
      }
    }

    /** `memmove` of the tail over the deleted block. */
    method Remove(at: nat, len: nat)
      requires Valid() && 0 < len < tempLen && at + len <= tempLen
      modifies this, out
      ensures Valid() && out == old(out) && tempLen == old(tempLen) - len
      ensures Contents() == Cut(old(Contents()), at, len)
    {
      ghost var before := out[..];
      var i := at;
      while i < tempLen - len
        invariant at <= i <= tempLen - len && out == old(out) && tempLen == old(tempLen)
        invariant forall k :: at <= k < i ==> out[k] == before[k + len]
        invariant forall k :: 0 <= k < out.Length && !(at <= k < i) ==> out[k] == before[k]
      {
        out[i] := out[i + len];
        i := i + 1;
      }
      tempLen := tempLen - len;
      assert Contents() == before[..at] + before[at + len..old(tempLen)];
    }

    method Poke(at: nat, b: byte)
      requires Valid() && at < tempLen
      modifies out
      ensures Contents() == old(Contents())[at := b]
    {
      out[at] := b;
    }

    /** A new buffer with `x` inserted. */
    method Grow(at: nat, x: seq<byte>)
      requires Valid() && at < tempLen && tempLen + |x| <= MAX_FILE
      modifies this
      ensures Valid() && fresh(out) && out.Length == tempLen == old(tempLen) + |x|
      ensures Contents() == Splice(old(Contents()), at, x)
    {
      var s := Splice(out[..tempLen], at, x);
      out := new byte[|s|](i requires 0 <= i < |s| => s[i]);
      tempLen := |s|;
    }

    /** One edit, in place or into a new buffer. */
    method Apply(op: Op)
      requires Valid() && OpOk(op)
      modifies this, out
      ensures Valid() && (out == old(out) || fresh(out))
      ensures Contents() == Edited(old(Contents()), ses, op)
    {
      hide BlockLen, UR, Splice, Put, Cut, FlipBit, AddTo, Bytes, Table, Xored, Block;
      match op {
        case Flip(bit) =>
          var b := UR(bit, 8 * tempLen);
          Poke(b / 8, FlipBit(out[b / 8], b % 8));
        case Interest(width, big, at, pick) =>
          if tempLen >= width {
            Store(UR(at, tempLen - width + 1), Bytes(Table(width)[UR(pick, |Table(width)|)], width, big));
          }
        case Arith(width, big, at, add, num) =>
          if tempLen >= width {
            var p := UR(at, tempLen - width + 1);
            Store(p, AddTo(out[..tempLen][p..p + width], big, add, num));
          }
        case XorByte(at, value) =>
          var p := UR(at, tempLen);
          Poke(p, Xored(out[p], value));
        case Delete(r1, r2, from) =>
          if tempLen >= 2 {
            var len := BlockLen(tempLen - 1, ses, r1, r2);
            Remove(UR(from, tempLen - len + 1), len);
          }
        case Clone(r1, r2, from, to, copy, fill) =>
          if tempLen + HAVOC_BLK_LARGE < MAX_FILE {
            var len := BlockLen(tempLen, ses, r1, r2);
            Grow(UR(to, tempLen), Block(out[..tempLen], from, len, copy, fill));
          }
        case Overwrite(r1, r2, from, to, copy, fill) =>
          if tempLen >= 2 {
            var len := BlockLen(tempLen - 1, ses, r1, r2);
            Store(UR(to, tempLen - len + 1), Block(out[..tempLen], from, len, copy, fill));
          }
        case OverwriteExtra(extra, at) =>
          if |extra| <= tempLen {
            Store(UR(at, tempLen - |extra| + 1), extra);
          }
        case InsertExtra(extra, at) =>
          if tempLen + |extra| < MAX_FILE {
            Grow(UR(at, tempLen), extra);
          }
      }
    }

    /** The buffer is the input again; it is reallocated only if it was left shorter than that. */
    method Restore(input: seq<byte>)
      requires Valid() && 1 <= |input| <= MAX_FILE
      modifies this, out
      ensures Valid() && Contents() == input && (out == old(out) || fresh(out))
    {
      if tempLen < |input| {
        out := new byte[|input|];
      }
      tempLen := |input|;
      Store(0, input);
    }

    /** The stack of edits of one iteration. */
    method Stack(input: seq<byte>, ops: seq<Op>) returns (run: seq<byte>)
      requires Valid() && Contents() == input
      requires forall i :: 0 <= i < |ops| ==> OpOk(ops[i])
      modifies this, out
      ensures Valid() && (out == old(out) || fresh(out))
      ensures 1 <= |input| <= MAX_FILE && run == EditedAll(input, ses, ops)
    {
      hide Edited;
      for i := 0 to |ops|
        invariant Valid() && (out == old(out) || fresh(out))
        invariant Contents() == EditedAll(input, ses, ops[..i])
      {
        assert ops[..i + 1][..i] == ops[..i];
        Apply(ops[i]);
      }
      assert ops[..|ops|] == ops;
      run := out[..tempLen];
    }

    /** One iteration: the file run, and the buffer put back unless the run makes the fuzzer stop. */
    method Iteration(input: seq<byte>, ops: seq<Op>, abandon: bool) returns (run: seq<byte>)
      requires Valid() && Contents() == input
      requires forall i :: 0 <= i < |ops| ==> OpOk(ops[i])
      modifies this, out
      ensures Valid() && (out == old(out) || fresh(out)) && (!abandon ==> Contents() == input)
      ensures 1 <= |input| <= MAX_FILE && run == EditedAll(input, ses, ops)
    {
      run := Stack(input, ops);
      if !abandon {
        Restore(input);
      }
    }
  }

  // ---------------------------------------------------------------------------------------------
  // A round

  /** What the runs of a round do: the edits of each iteration, whether its run finds a path, and whether it
      makes the fuzzer abandon the entry. */
  datatype Script = Script(ops: nat -> seq<Op>, finds: nat -> bool, abandons: nat -> bool)

  ghost predicate ScriptOk(script: Script) {
    forall k, i :: 0 <= i < |script.ops(k)| ==> OpOk(script.ops(k)[i])
  }

  /** The length a round starts with. */
  function FirstLength(cycles: nat, score: nat, havocDiv: nat): nat
    requires havocDiv > 0
  {
    Max(HAVOC_MIN, cycles * score / havocDiv / 100)
  }

  /** The length planned for the round, and the score, after `k` runs: both double when a run finds a path
      while the score is within bounds. */
  function Plan(finds: nat -> bool, stageMax: nat, score: nat, k: nat): (nat, nat) {
    if k == 0 then (stageMax, score)
    else
      var (m, p) := Plan(finds, stageMax, score, k - 1);
      if finds(k - 1) && p <= HAVOC_MAX_MULT * 100 then (m * 2, p * 2) else (m, p)
  }

  lemma {:induction false} PlanSame(finds: nat -> bool, stageMax: nat, score: nat, k: nat)
    requires forall i :: !finds(i)
    ensures Plan(finds, stageMax, score, k) == (stageMax, score)
  {
    if k > 0 { PlanSame(finds, stageMax, score, k - 1); }
  }

  /** No round is planned shorter than 16 or longer than 32768 files. */
  lemma {:induction false} PlanBound(finds: nat -> bool, cycles: nat, score: nat, havocDiv: nat, k: nat)
    requires cycles <= HAVOC_CYCLES_INIT && 2 <= score <= HAVOC_MAX_MULT * 100 && havocDiv > 0
    ensures var (m, p) := Plan(finds, FirstLength(cycles, score, havocDiv), score, k);
      HAVOC_MIN <= m <= 32768 && 100 * m <= HAVOC_CYCLES_INIT * p && p <= 2 * HAVOC_MAX_MULT * 100
  {
    if k > 0 {
      hide FirstLength;
      PlanBound(finds, cycles, score, havocDiv, k - 1);
    } else {
      Length(cycles, score, havocDiv);
    }
  }

  /** The files run are those the script asks for, and each was run because more files were planned. */
  ghost predicate Ran(runs: seq<seq<byte>>, input: seq<byte>, ses: Session, script: Script, first: nat, score: nat) {
    && 1 <= |input| <= MAX_FILE && ses.queueCycle > 0 && ScriptOk(script)
    && (forall k :: 0 <= k < |runs| ==> runs[k] == EditedAll(input, ses, script.ops(k)))
    && (forall k :: 0 <= k < |runs| ==> 1 <= |runs[k]| <= MAX_FILE)
    && (forall k :: 0 <= k < |runs| ==> k < Plan(script.finds, first, score, k).0)
    && (forall k :: 0 <= k < |runs| - 1 ==> !script.abandons(k))
  }

  lemma RanMore(runs: seq<seq<byte>>, run: seq<byte>, input: seq<byte>, ses: Session, script: Script, first: nat, score: nat)
    requires Ran(runs, input, ses, script, first, score) && (runs != [] ==> !script.abandons(|runs| - 1))
    requires run == EditedAll(input, ses, script.ops(|runs|))
    requires |runs| < Plan(script.finds, first, score, |runs|).0
    ensures Ran(runs + [run], input, ses, script, first, score)
  {
    hide EditedAll, Plan;
  }

  /** A whole round on a buffer that holds the input. Every file run is the input with the edits of its
      iteration, of at least one byte and within the size limit. The round goes on exactly while fewer files
      were run than planned, which is never more than 32768. Unless it is abandoned, it runs at least 16 files and leaves
      the input in the buffer. */
  method Round(b: Buffer, input: seq<byte>, cycles: nat, score: nat, havocDiv: nat, script: Script)
      returns (runs: seq<seq<byte>>, abandoned: bool)
    requires b.Valid() && b.Contents() == input && ScriptOk(script)
    requires cycles <= HAVOC_CYCLES_INIT && 2 <= score <= HAVOC_MAX_MULT * 100 && havocDiv > 0
    modifies b, b.out
    ensures |runs| <= 32768 && Ran(runs, input, b.ses, script, FirstLength(cycles, score, havocDiv), score)
    ensures abandoned <==> runs != [] && script.abandons(|runs| - 1)
    ensures !abandoned ==> HAVOC_MIN <= |runs| && b.Valid() && b.Contents() == input
    ensures var first := FirstLength(cycles, score, havocDiv);
      && (!abandoned ==> |runs| == Plan(script.finds, first, score, |runs|).0)
      && (!abandoned && (forall i :: !script.finds(i)) ==> |runs| == first)
  {
    hide EditedAll, FirstLength, Plan, ScriptOk, Ran;
    ghost var first := FirstLength(cycles, score, havocDiv);
    var stageMax, perf := FirstLength(cycles, score, havocDiv), score;
    runs, abandoned := [], false;
    StartRound(input, b.ses, script, first, score);
    PlanBound(script.finds, cycles, score, havocDiv, 0);
    while |runs| < stageMax
      invariant |runs| <= stageMax && HAVOC_MIN <= stageMax <= 32768
      invariant Plan(script.finds, first, score, |runs|) == (stageMax, perf)
      invariant b.Valid() && b.Contents() == input && (b.out == old(b.out) || fresh(b.out))
      invariant Ran(runs, input, b.ses, script, first, score) && (runs != [] ==> !script.abandons(|runs| - 1))
      decreases 32768 - |runs|
    {
      var k := |runs|;
      PlanBound(script.finds, cycles, score, havocDiv, k + 1);
      PlanStep(script.finds, first, score, k);
      var run := b.Iteration(input, script.ops(k), script.abandons(k));
      RanMore(runs, run, input, b.ses, script, first, score);
      runs := runs + [run];
      if script.abandons(k) {
        return runs, true;
      }
      if script.finds(k) {
        if perf <= HAVOC_MAX_MULT * 100 {
          stageMax, perf := stageMax * 2, perf * 2;
        }
      }
    }
    if forall i :: !script.finds(i) { PlanSame(script.finds, first, score, |runs|); }
  }

  lemma StartRound(input: seq<byte>, ses: Session, script: Script, first: nat, score: nat)
    requires 1 <= |input| <= MAX_FILE && ses.queueCycle > 0 && ScriptOk(script)
    ensures Ran([], input, ses, script, first, score) && Plan(script.finds, first, score, 0) == (first, score)
    ensures forall k, i :: 0 <= i < |script.ops(k)| ==> OpOk(script.ops(k)[i])
  {
  }

  lemma PlanStep(finds: nat -> bool, stageMax: nat, score: nat, k: nat)
    ensures var (m, p) := Plan(finds, stageMax, score, k);
      Plan(finds, stageMax, score, k + 1) == if finds(k) && p <= HAVOC_MAX_MULT * 100 then (m * 2, p * 2) else (m, p)
  {
  }

  lemma Length(cycles: nat, score: nat, havocDiv: nat)
    requires cycles <= HAVOC_CYCLES_INIT && havocDiv > 0
    ensures 100 * (cycles * score / havocDiv / 100) <= HAVOC_CYCLES_INIT * score
  {
    assert cycles * score <= HAVOC_CYCLES_INIT * score;
    Shrinks(cycles * score, havocDiv);
  }

  lemma Shrinks(x: nat, d: nat)
    requires d > 0
    ensures x / d <= x
  {
    var q := x / d;
    assert x == q * d + x % d && q * d == q * (d - 1) + q;
    Product(q, d - 1);
  }

  lemma Product(a: nat, b: nat)
    ensures a * b >= 0
  {
  }
}
