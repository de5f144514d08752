/** Novelty detection on coverage maps: hit counts are classified into eight buckets, and a word-at-a-time
    comparison with the virgin map reports what no earlier trace has shown. An edge is a byte of the
    map, addressed by word `w` and byte `k` of that word (x86-64: eight bytes to a word). */
module Novelty {
  import opened Wire

  type Map = seq<bv64>

  /** Byte `k` of a word, least significant first. */
  function Byte(v: bv64, k: nat): bv8 {
    if k == 0 then (v & 0xff) as bv8 else if k == 1 then ((v >> 8) & 0xff) as bv8
    else if k == 2 then ((v >> 16) & 0xff) as bv8 else if k == 3 then ((v >> 24) & 0xff) as bv8
    else if k == 4 then ((v >> 32) & 0xff) as bv8 else if k == 5 then ((v >> 40) & 0xff) as bv8
    else if k == 6 then ((v >> 48) & 0xff) as bv8 else ((v >> 56) & 0xff) as bv8
  }

  function At(m: Map, w: nat, k: nat): bv8
    requires w < |m|
  {
    Byte(m[w], k)
  }

  lemma WordIsZero(v: bv64)
    ensures v == 0 <==>
      && Byte(v, 0) == 0 && Byte(v, 1) == 0 && Byte(v, 2) == 0 && Byte(v, 3) == 0
      && Byte(v, 4) == 0 && Byte(v, 5) == 0 && Byte(v, 6) == 0 && Byte(v, 7) == 0
  {
  }

  function Both(v: bv64, u: bv64): bv64 { v & u }

  function Both8(x: bv8, y: bv8): bv8 { x & y }

  function Not(v: bv64): bv64 { !v }

  function Not8(x: bv8): bv8 { !x }

  lemma BothBytes(v: bv64, u: bv64)
    ensures var r := Both(v, u);
      && Byte(r, 0) == Both8(Byte(v, 0), Byte(u, 0)) && Byte(r, 1) == Both8(Byte(v, 1), Byte(u, 1))
      && Byte(r, 2) == Both8(Byte(v, 2), Byte(u, 2)) && Byte(r, 3) == Both8(Byte(v, 3), Byte(u, 3))
      && Byte(r, 4) == Both8(Byte(v, 4), Byte(u, 4)) && Byte(r, 5) == Both8(Byte(v, 5), Byte(u, 5))
      && Byte(r, 6) == Both8(Byte(v, 6), Byte(u, 6)) && Byte(r, 7) == Both8(Byte(v, 7), Byte(u, 7))
  {
  }

  lemma NotBytes(v: bv64)
    ensures var r := Not(v);
      && Byte(r, 0) == Not8(Byte(v, 0)) && Byte(r, 1) == Not8(Byte(v, 1))
      && Byte(r, 2) == Not8(Byte(v, 2)) && Byte(r, 3) == Not8(Byte(v, 3))
      && Byte(r, 4) == Not8(Byte(v, 4)) && Byte(r, 5) == Not8(Byte(v, 5))
      && Byte(r, 6) == Not8(Byte(v, 6)) && Byte(r, 7) == Not8(Byte(v, 7))
  {
  }

  /** `v &= ~u` on a word, and on a byte. */
  function Clear(v: bv64, u: bv64): bv64 { Both(v, Not(u)) }

  function Clear8(x: bv8, y: bv8): bv8 { Both8(x, Not8(y)) }

  lemma ClearByte(v: bv64, u: bv64, k: nat)
    requires k < 8
    ensures Byte(Clear(v, u), k) == Clear8(Byte(v, k), Byte(u, k))
  {
    hide Byte, Both, Both8, Not, Not8;
    BothBytes(v, Not(u));
    NotBytes(u);
  }

  // ---------------------------------------------------------------------------------------------
  // Buckets

  /** `count_class_lookup8` */
  function Class(c: bv8): bv8 {
    if c <= 2 then c else if c == 3 then 4 else if c <= 7 then 8 else if c <= 15 then 16
    else if c <= 31 then 32 else if c <= 127 then 64 else 128
  }

  function Bucket(j: nat): bv8 {
    if j == 0 then 1 else if j == 1 then 2 else if j == 2 then 4 else if j == 3 then 8
    else if j == 4 then 16 else if j == 5 then 32 else if j == 6 then 64 else 128
  }

  predicate Within(c: bv8, d: bv8, lo: bv8, hi: bv8) { lo <= c <= hi && lo <= d <= hi }

  /** Two hit counts fall into one bucket exactly if they are equal or lie in one of the ranges 4-7, 8-15, 16-31,
      32-127 and 128-255. Larger counts never get a smaller class. */
  lemma SameBucket(c: bv8, d: bv8)
    ensures Class(c) == Class(d) <==>
      c == d || Within(c, d, 4, 7) || Within(c, d, 8, 15) || Within(c, d, 16, 31) || Within(c, d, 32, 127) || Within(c, d, 128, 255)
    ensures c <= d ==> Class(c) <= Class(d)
  {
  }

  lemma ClassIsBucket(c: bv8, j: nat)
    ensures Class(c) == 0 <==> c == 0
    ensures Class(c) & Bucket(j) != 0 <==> Class(c) == Bucket(j)
  {
  }

  /** An entry of `count_class_lookup16`, as `init_count_class16` fills it. */
  function Class16(x: bv16): bv16 {
    ((Class((x >> 8) as bv8) as bv16) << 8) | (Class((x & 0xff) as bv8) as bv16)
  }

  function Join(h0: bv16, h1: bv16, h2: bv16, h3: bv16): bv64 {
    (h0 as bv64) | ((h1 as bv64) << 16) | ((h2 as bv64) << 32) | ((h3 as bv64) << 48)
  }

  function Half(v: bv64, i: nat): bv16 {
    if i == 0 then (v & 0xffff) as bv16 else if i == 1 then ((v >> 16) & 0xffff) as bv16
    else if i == 2 then ((v >> 32) & 0xffff) as bv16 else ((v >> 48) & 0xffff) as bv16
  }

  function Low(x: bv16): bv8 { (x & 0xff) as bv8 }

  function High(x: bv16): bv8 { (x >> 8) as bv8 }

  lemma HalvesOfJoin(h0: bv16, h1: bv16, h2: bv16, h3: bv16)
    ensures var v := Join(h0, h1, h2, h3);
      && Byte(v, 0) == Low(h0) && Byte(v, 1) == High(h0) && Byte(v, 2) == Low(h1) && Byte(v, 3) == High(h1)
      && Byte(v, 4) == Low(h2) && Byte(v, 5) == High(h2) && Byte(v, 6) == Low(h3) && Byte(v, 7) == High(h3)
  {
  }

  lemma BytesOfHalves(v: bv64)
    ensures Low(Half(v, 0)) == Byte(v, 0) && High(Half(v, 0)) == Byte(v, 1)
    ensures Low(Half(v, 1)) == Byte(v, 2) && High(Half(v, 1)) == Byte(v, 3)
    ensures Low(Half(v, 2)) == Byte(v, 4) && High(Half(v, 2)) == Byte(v, 5)
    ensures Low(Half(v, 3)) == Byte(v, 6) && High(Half(v, 3)) == Byte(v, 7)
  {
  }

  lemma ClassOfHalf(x: bv16)
    ensures Low(Class16(x)) == Class(Low(x)) && High(Class16(x)) == Class(High(x))
  {
  }

  /** The word-wise classification is the byte-wise one. */
  lemma ClassifiedBytes(v: bv64, k: nat)
    requires k < 8
    ensures Byte(Join(Class16(Half(v, 0)), Class16(Half(v, 1)), Class16(Half(v, 2)), Class16(Half(v, 3))), k) == Class(Byte(v, k))
  {
    hide Byte, Join, Class16, Half, Low, High, Class;
    HalvesOfJoin(Class16(Half(v, 0)), Class16(Half(v, 1)), Class16(Half(v, 2)), Class16(Half(v, 3)));
    BytesOfHalves(v);
    ClassOfHalf(Half(v, 0));
    ClassOfHalf(Half(v, 1));
    ClassOfHalf(Half(v, 2));
    ClassOfHalf(Half(v, 3));
  }

  // ---------------------------------------------------------------------------------------------
  // Counting bits

  function Bit(b: bv8, m: bv8): nat { if b & m != 0 then 1 else 0 }

  function Ones(b: bv8): nat {
    Bit(b, 1) + Bit(b, 2) + Bit(b, 4) + Bit(b, 8) + Bit(b, 16) + Bit(b, 32) + Bit(b, 64) + Bit(b, 128)
  }

  function WordOnes(v: bv64): nat {
    Ones(Byte(v, 0)) + Ones(Byte(v, 1)) + Ones(Byte(v, 2)) + Ones(Byte(v, 3))
    + Ones(Byte(v, 4)) + Ones(Byte(v, 5)) + Ones(Byte(v, 6)) + Ones(Byte(v, 7))
  }

  function Total(m: Map): nat {
    if m == [] then 0 else Total(m[..|m| - 1]) + WordOnes(m[|m| - 1])
  }

  function Add(x: bv32, y: bv32): bv32 { x + y }

  lemma AddAssoc(x: bv32, y: bv32, z: bv32)
    ensures Add(Add(x, y), z) == Add(x, Add(y, z)) && Add(x, 0) == x
  {
  }

  /** The 32-bit value of a count. */
  function U32(n: nat): bv32 { if n == 0 then 0 else Add(U32(n - 1), 1) }

  lemma {:induction false} U32Add(a: nat, b: nat)
    ensures U32(a + b) == Add(U32(a), U32(b))
  {
    hide Add;
    AddAssoc(U32(a), 0, 0);
    if b > 0 {
      U32Add(a, b - 1);
      AddAssoc(U32(a), U32(b - 1), 1);
    }
  }

  /** The three folding steps of the population count: each byte then holds the number of its bits. */
  function Fold(v: bv32): bv32 {
    var v1 := v - ((v >> 1) & 0x55555555);
    var v2 := (v1 & 0x33333333) + ((v1 >> 2) & 0x33333333);
    (v2 + (v2 >> 4)) & 0x0f0f0f0f
  }

  function Fold8(v: bv8): bv8 {
    var v1 := v - ((v >> 1) & 0x55);
    var v2 := (v1 & 0x33) + ((v1 >> 2) & 0x33);
    (v2 + (v2 >> 4)) & 0x0f
  }

  function Byte32(v: bv32, k: nat): bv8 {
    if k == 0 then (v & 0xff) as bv8 else if k == 1 then ((v >> 8) & 0xff) as bv8
    else if k == 2 then ((v >> 16) & 0xff) as bv8 else ((v >> 24) & 0xff) as bv8
  }

  /** No carry crosses a byte. */
  lemma FoldLow(v: bv32)
    ensures Byte32(Fold(v), 0) == Fold8(Byte32(v, 0)) && Byte32(Fold(v), 1) == Fold8(Byte32(v, 1))
  {
  }

  lemma FoldHigh(v: bv32)
    ensures Byte32(Fold(v), 2) == Fold8(Byte32(v, 2)) && Byte32(Fold(v), 3) == Fold8(Byte32(v, 3))
  {
  }

  lemma Fold8Counts(b: bv8)
    ensures Wide(Fold8(b)) == U32(Ones(b))
  {
    SmallU32();
    Fold8Digit(b);
    hide U32, Fold8;
  }

  function Digit(n: nat): bv8 {
    if n == 0 then 0 else if n == 1 then 1 else if n == 2 then 2 else if n == 3 then 3 else if n == 4 then 4
    else if n == 5 then 5 else if n == 6 then 6 else if n == 7 then 7 else 8
  }

  lemma Fold8Digit(b: bv8)
    ensures Fold8(b) == Digit(Ones(b)) && Ones(b) <= 8
  {
  }

  lemma SmallU32()
    ensures U32(0) == 0 && U32(1) == 1 && U32(2) == 2 && U32(3) == 3 && U32(4) == 4
    ensures U32(5) == 5 && U32(6) == 6 && U32(7) == 7 && U32(8) == 8
  {
    assert U32(1) == U32(0) + 1;
    assert U32(3) == U32(2) + 1;
    assert U32(5) == U32(4) + 1;
    assert U32(7) == U32(6) + 1;
  }

  /** The multiplication that adds up the four bytes. */
  function Gather(x: bv32): bv32 { (x * 0x01010101) >> 24 }

  function Wide(b: bv8): bv32 { b as bv32 }

  predicate Digits(x: bv32) { x & 0xf0f0f0f0 == 0 }

  lemma GatherSums(x: bv32)
    requires Digits(x)
    ensures Gather(x) == Add(Add(Add(Wide(Byte32(x, 0)), Wide(Byte32(x, 1))), Wide(Byte32(x, 2))), Wide(Byte32(x, 3)))
  {
  }

  lemma FoldIsMasked(v: bv32)
    ensures Digits(Fold(v))
  {
  }

  function Ones32(v: bv32): nat {
    Ones(Byte32(v, 0)) + Ones(Byte32(v, 1)) + Ones(Byte32(v, 2)) + Ones(Byte32(v, 3))
  }

  /** The population count of `count_bits` is the number of bits set. */
  lemma PopulationCount(v: bv32)
    ensures Gather(Fold(v)) == U32(Ones32(v))
  {
    hide Fold, Fold8, Ones, U32, Byte32, Add, Gather, Wide, Digits;
    var b0, b1, b2, b3 := Byte32(v, 0), Byte32(v, 1), Byte32(v, 2), Byte32(v, 3);
    FoldIsMasked(v);
    GatherSums(Fold(v));
    FoldLow(v);
    FoldHigh(v);
    Fold8Counts(b0);
    Fold8Counts(b1);
    Fold8Counts(b2);
    Fold8Counts(b3);
    U32Add(Ones(b0), Ones(b1));
    U32Add(Ones(b0) + Ones(b1), Ones(b2));
    U32Add(Ones(b0) + Ones(b1) + Ones(b2), Ones(b3));
  }

  lemma {:induction false} TotalSplit(m: Map, n: nat)
    requires n < |m|
    ensures Total(m[..n + 1]) == Total(m[..n]) + WordOnes(m[n])
  {
    assert m[..n + 1][..n] == m[..n];
  }

  function LowHalf(v: bv64): bv32 { (v & 0xffff_ffff) as bv32 }

  function HighHalf(v: bv64): bv32 { (v >> 32) as bv32 }

  lemma HalfBytes(v: bv64)
    ensures Byte32(LowHalf(v), 0) == Byte(v, 0) && Byte32(LowHalf(v), 1) == Byte(v, 1)
    ensures Byte32(LowHalf(v), 2) == Byte(v, 2) && Byte32(LowHalf(v), 3) == Byte(v, 3)
    ensures Byte32(HighHalf(v), 0) == Byte(v, 4) && Byte32(HighHalf(v), 1) == Byte(v, 5)
    ensures Byte32(HighHalf(v), 2) == Byte(v, 6) && Byte32(HighHalf(v), 3) == Byte(v, 7)
  {
  }

  lemma AllOnes(v: bv32)
    requires v == 0xffff_ffff
    ensures Ones32(v) == 32
  {
  }

  const TWO32: nat := 0x1_0000_0000

  lemma U32Literals()
    ensures U32(0) == 0 && U32(1) == 1 && U32(2) == 2 && U32(3) == 3 && U32(4) == 4 && U32(5) == 5
    ensures U32(6) == 6 && U32(7) == 7 && U32(8) == 8 && U32(9) == 9 && U32(10) == 10 && U32(11) == 11
    ensures U32(12) == 12 && U32(13) == 13 && U32(14) == 14 && U32(15) == 15 && U32(16) == 16 && U32(17) == 17
    ensures U32(18) == 18 && U32(19) == 19 && U32(20) == 20 && U32(21) == 21 && U32(22) == 22 && U32(23) == 23
    ensures U32(24) == 24 && U32(25) == 25 && U32(26) == 26 && U32(27) == 27 && U32(28) == 28 && U32(29) == 29
    ensures U32(30) == 30 && U32(31) == 31 && U32(32) == 32
  {
    assert U32(1) == 1;
    assert U32(2) == 2;
    assert U32(3) == 3;
    assert U32(4) == 4;
    assert U32(5) == 5;
    assert U32(6) == 6;
    assert U32(7) == 7;
    assert U32(8) == 8;
    assert U32(9) == 9;
    assert U32(10) == 10;
    assert U32(11) == 11;
    assert U32(12) == 12;
    assert U32(13) == 13;
    assert U32(14) == 14;
    assert U32(15) == 15;
    assert U32(16) == 16;
    assert U32(17) == 17;
    assert U32(18) == 18;
    assert U32(19) == 19;
    assert U32(20) == 20;
    assert U32(21) == 21;
    assert U32(22) == 22;
    assert U32(23) == 23;
    assert U32(24) == 24;
    assert U32(25) == 25;
    assert U32(26) == 26;
    assert U32(27) == 27;
    assert U32(28) == 28;
    assert U32(29) == 29;
    assert U32(30) == 30;
    assert U32(31) == 31;
    assert U32(32) == 32;
  }

  /** Up to 32, the 32-bit value of a count is that number. */
  lemma U32Value(n: nat)
    requires n <= 32
    ensures U32(n) as nat == n
  {
    U32Literals();
    hide U32;
    Literals();
  }

  lemma Literals()
    ensures 0 as bv32 as nat == 0 && 1 as bv32 as nat == 1 && 2 as bv32 as nat == 2 && 3 as bv32 as nat == 3
    ensures 4 as bv32 as nat == 4 && 5 as bv32 as nat == 5 && 6 as bv32 as nat == 6 && 7 as bv32 as nat == 7
    ensures 8 as bv32 as nat == 8 && 9 as bv32 as nat == 9 && 10 as bv32 as nat == 10 && 11 as bv32 as nat == 11
    ensures 12 as bv32 as nat == 12 && 13 as bv32 as nat == 13 && 14 as bv32 as nat == 14 && 15 as bv32 as nat == 15
    ensures 16 as bv32 as nat == 16 && 17 as bv32 as nat == 17 && 18 as bv32 as nat == 18 && 19 as bv32 as nat == 19
    ensures 20 as bv32 as nat == 20 && 21 as bv32 as nat == 21 && 22 as bv32 as nat == 22 && 23 as bv32 as nat == 23
    ensures 24 as bv32 as nat == 24 && 25 as bv32 as nat == 25 && 26 as bv32 as nat == 26 && 27 as bv32 as nat == 27
    ensures 28 as bv32 as nat == 28 && 29 as bv32 as nat == 29 && 30 as bv32 as nat == 30 && 31 as bv32 as nat == 31
    ensures 32 as bv32 as nat == 32
  {
  }

  lemma OnesBound(v: bv32)
    ensures Ones32(v) <= 32
  {
    hide Byte32, Fold8, Ones;
    Fold8Digit(Byte32(v, 0));
    Fold8Digit(Byte32(v, 1));
    Fold8Digit(Byte32(v, 2));
    Fold8Digit(Byte32(v, 3));
  }

  /** One 32-bit word of `count_bits`, with its shortcut for untouched words. */
  method CountWord(v: bv32) returns (n: nat)
    ensures n == Ones32(v)
  {
    hide Ones32, U32, Fold, Gather;
    if v == 0xffff_ffff {
      AllOnes(v);
      n := 32;
    } else {
      PopulationCount(v);
      OnesBound(v);
      U32Value(Ones32(v));
      n := Gather(Fold(v)) as nat;
    }
  }

  function Mod32(n: nat): nat { n % TWO32 }

  lemma Mod32Sum(a: nat, b: nat)
    ensures Mod32(Mod32(a) + b) == Mod32(a + b)
  {
  }

  lemma Mod32Small(n: nat)
    ensures n < TWO32 ==> Mod32(n) == n
  {
  }

  /** The two halves of a 64-bit word, added to a counter that stands for `total`. */
  method AddWord(v: bv64, ret: nat, ghost total: nat) returns (ret': nat)
    requires ret == Mod32(total)
    ensures ret' == Mod32(total + WordOnes(v)) && WordOnes(v) <= 64
  {
    hide WordOnes, Ones32, LowHalf, HighHalf, Mod32;
    WordHalves(v);
    OnesBound(LowHalf(v));
    OnesBound(HighHalf(v));
    var n := CountWord(LowHalf(v));
    Mod32Sum(total, n);
    var m := CountWord(HighHalf(v));
    Mod32Sum(total + n, m);
    ret' := Mod32(Mod32(ret + n) + m);
  }

  lemma NothingCounted()
    ensures Total([]) == 0 == Mod32(0)
  {
  }

  /** `count_bits`: the number of bits set. The counter is 32 bits wide, which is enough for any map below
      half a gigabyte. */
  method CountBits(mem: array<bv64>) returns (ret: nat)
    ensures ret == Mod32(Total(mem[..]))
    ensures 64 * mem.Length < TWO32 ==> ret == Total(mem[..])
  {
    hide WordOnes, Mod32, Total;
    ghost var s := mem[..];
    NothingCounted();
    ret := 0;
    assert s[..0] == [];
    for i := 0 to mem.Length
      invariant Total(s[..i]) <= 64 * i && ret == Mod32(Total(s[..i]))
    {
      TotalSplit(s, i);
      ret := AddWord(mem[i], ret, Total(s[..i]));
    }
    assert s[..mem.Length] == s;
    Mod32Small(Total(s));
  }

  lemma WordHalves(v: bv64)
    ensures WordOnes(v) == Ones32(LowHalf(v)) + Ones32(HighHalf(v))
  {
    hide Ones, Byte, Byte32, LowHalf, HighHalf;
    HalfBytes(v);
  }

  // ---------------------------------------------------------------------------------------------
  // What has been seen

  ghost predicate Shaped(hist: seq<Map>, n: nat) {
    forall t :: 0 <= t < |hist| ==> |hist[t]| == n
  }

  /** Some trace hit the edge. */
  ghost predicate Hit(hist: seq<Map>, n: nat, w: nat, k: nat)
    requires Shaped(hist, n) && w < n
  {
    exists t :: 0 <= t < |hist| && At(hist[t], w, k) != 0
  }

  /** Some trace hit the edge as often as bucket `b` says. */
  ghost predicate HitAs(hist: seq<Map>, n: nat, w: nat, k: nat, b: bv8)
    requires Shaped(hist, n) && w < n
  {
    exists t :: 0 <= t < |hist| && Class(At(hist[t], w, k)) == b
  }

  /** What the virgin map holds for the edge after those traces. */
  ghost function VirginByte(hist: seq<Map>, n: nat, w: nat, k: nat): bv8
    requires Shaped(hist, n) && w < n
  {
    if hist == [] then 0xff
    else Clear8(VirginByte(hist[..|hist| - 1], n, w, k), Class(At(hist[|hist| - 1], w, k)))
  }

  ghost predicate VirginOk(virgin: Map, hist: seq<Map>) {
    && Shaped(hist, |virgin|)
    && forall w, k :: 0 <= w < |virgin| && 0 <= k < 8 ==> At(virgin, w, k) == VirginByte(hist, |virgin|, w, k)
  }

  lemma ClearBit(x: bv8, c: bv8, j: nat)
    ensures Both8(Clear8(x, Class(c)), Bucket(j)) != 0 <==> Both8(x, Bucket(j)) != 0 && Class(c) != Bucket(j)
  {
    ClassIsBucket(c, j);
    ClearBitRaw(x, Class(c), Bucket(j), j);
  }

  lemma ClearBitRaw(x: bv8, c: bv8, b: bv8, j: nat)
    requires b == Bucket(j)
    ensures Both8(Clear8(x, c), b) != 0 <==> Both8(x, b) != 0 && c & b == 0
  {
  }

  lemma ClearPristine(x: bv8, c: bv8)
    ensures Clear8(x, Class(c)) == 0xff <==> x == 0xff && c == 0
  {
    ClassIsBucket(c, 0);
    hide Class;
  }

  /** A bit of the virgin byte is left exactly if no trace hit the edge in that bucket. */
  lemma {:induction false} BitMeansUnseen(hist: seq<Map>, n: nat, w: nat, k: nat, j: nat)
    requires Shaped(hist, n) && w < n && k < 8
    ensures Both8(VirginByte(hist, n, w, k), Bucket(j)) != 0 <==> !HitAs(hist, n, w, k, Bucket(j))
    decreases |hist|
  {
    if hist == [] {
      assert Both8(0xff, Bucket(j)) != 0;
    } else {
      hide Bucket, Both8, Clear8, Class, Byte;
      var front, last := hist[..|hist| - 1], hist[|hist| - 1];
      BitMeansUnseen(front, n, w, k, j);
      ClearBit(VirginByte(front, n, w, k), At(last, w, k), j);
      if HitAs(front, n, w, k, Bucket(j)) {
        var t :| 0 <= t < |front| && Class(At(front[t], w, k)) == Bucket(j);
        assert hist[t] == front[t];
      }
      if HitAs(hist, n, w, k, Bucket(j)) {
        var t :| 0 <= t < |hist| && Class(At(hist[t], w, k)) == Bucket(j);
        if t < |front| { assert front[t] == hist[t]; }
      }
    }
  }

  /** A virgin byte is untouched exactly if no trace hit the edge. */
  lemma {:induction false} PristineMeansUnhit(hist: seq<Map>, n: nat, w: nat, k: nat)
    requires Shaped(hist, n) && w < n
    ensures VirginByte(hist, n, w, k) == 0xff <==> !Hit(hist, n, w, k)
    decreases |hist|
  {
    hide Clear8, Class, Byte;
    if hist != [] {
      var front, last := hist[..|hist| - 1], hist[|hist| - 1];
      PristineMeansUnhit(front, n, w, k);
      ClearPristine(VirginByte(front, n, w, k), At(last, w, k));
      if Hit(front, n, w, k) {
        var t :| 0 <= t < |front| && At(front[t], w, k) != 0;
        assert hist[t] == front[t];
      }
      if Hit(hist, n, w, k) {
        var t :| 0 <= t < |hist| && At(hist[t], w, k) != 0;
        if t < |front| { assert front[t] == hist[t]; }
      }
    }
  }

  // ---------------------------------------------------------------------------------------------
  // The word loops

  /** Byte `k` is hit in a bucket that is still set in the virgin byte. */
  predicate NewPair(c: bv64, v: bv64, k: nat) { Both8(Byte(c, k), Byte(v, k)) != 0 }

  /** Byte `k` is hit and its virgin byte untouched. */
  predicate NewEdge(c: bv64, v: bv64, k: nat) { Byte(c, k) != 0 && Byte(v, k) == 0xff }

  predicate PairIn(c: bv64, v: bv64) { exists k: nat | k < 8 :: NewPair(c, v, k) }

  predicate EdgeIn(c: bv64, v: bv64) { exists k: nat | k < 8 :: NewEdge(c, v, k) }

  lemma WordTest(c: bv64, v: bv64)
    ensures Both(c, v) != 0 <==> PairIn(c, v)
    ensures EdgeIn(c, v) ==> PairIn(c, v)
    ensures c == 0 ==> !PairIn(c, v)
  {
    hide Byte, Both, Both8;
    BothBytes(c, v);
    WordIsZero(Both(c, v));
    if EdgeIn(c, v) {
      var k: nat :| k < 8 && NewEdge(c, v, k);
      WithPristine(Byte(c, k));
      assert NewPair(c, v, k);
    }
    if c == 0 { assert Both(c, v) == 0 by { BothZero(v); } }
    if Both(c, v) != 0 {
      assert NewPair(c, v, 0) || NewPair(c, v, 1) || NewPair(c, v, 2) || NewPair(c, v, 3)
          || NewPair(c, v, 4) || NewPair(c, v, 5) || NewPair(c, v, 6) || NewPair(c, v, 7);
    }
  }

  lemma WithPristine(x: bv8)
    ensures Both8(x, 0xff) == x
  {
  }

  lemma BothZero(v: bv64)
    ensures Both(0, v) == 0
  {
  }

  lemma ClearNothing(v: bv64, c: bv64)
    requires Both(c, v) == 0
    ensures Clear(v, c) == v
  {
  }

  /** The eight-way test of the source. */
  method HasPristine(c: bv64, v: bv64) returns (r: bool)
    ensures r <==> EdgeIn(c, v)
  {
    hide Byte;
    r := NewEdge(c, v, 0) || NewEdge(c, v, 1) || NewEdge(c, v, 2) || NewEdge(c, v, 3)
      || NewEdge(c, v, 4) || NewEdge(c, v, 5) || NewEdge(c, v, 6) || NewEdge(c, v, 7);
  }

  /** `has_new_bits` */
  method HasNewBits(current: array<bv64>, virgin: array<bv64>) returns (ret: nat)
    requires current.Length == virgin.Length && current != virgin
    modifies virgin
    ensures ret <= 2
    ensures ret == 2 <==> exists w :: 0 <= w < current.Length && EdgeIn(current[w], old(virgin[w]))
    ensures ret >= 1 <==> exists w :: 0 <= w < current.Length && PairIn(current[w], old(virgin[w]))
    ensures forall w :: 0 <= w < virgin.Length ==> virgin[w] == Clear(old(virgin[w]), current[w])
  {
    hide Both, Clear, PairIn, EdgeIn;
    ret := 0;
    var i := 0;
    while i < current.Length
      invariant 0 <= i <= current.Length && ret <= 2
      invariant ret == 2 <==> exists w :: 0 <= w < i && EdgeIn(current[w], old(virgin[w]))
      invariant ret >= 1 <==> exists w :: 0 <= w < i && PairIn(current[w], old(virgin[w]))
      invariant forall w :: 0 <= w < i ==> virgin[w] == Clear(old(virgin[w]), current[w])
      invariant forall w :: i <= w < virgin.Length ==> virgin[w] == old(virgin[w])
    {
      WordTest(current[i], virgin[i]);
      if current[i] != 0 && Both(current[i], virgin[i]) != 0 {
        if ret < 2 {
          var pristine := HasPristine(current[i], virgin[i]);
          ret := if pristine then 2 else 1;
        }
        virgin[i] := Clear(virgin[i], current[i]);
      } else {
        ClearNothing(virgin[i], current[i]);
      }
      i := i + 1;
    }
  }

  /** `classify_counts`: every hit count becomes its bucket. */
  method ClassifyCounts(mem: array<bv64>)
    modifies mem
    ensures forall w, k :: 0 <= w < mem.Length && 0 <= k < 8 ==> Byte(mem[w], k) == Class(old(Byte(mem[w], k)))
  {
    hide Byte, Class, Join, Class16, Half;
    var i := 0;
    while i < mem.Length
      invariant 0 <= i <= mem.Length
      invariant forall w, k :: 0 <= w < i && 0 <= k < 8 ==> Byte(mem[w], k) == Class(old(Byte(mem[w], k)))
      invariant forall w :: i <= w < mem.Length ==> mem[w] == old(mem[w])
    {
      var v := mem[i];
      forall k | 0 <= k < 8
        ensures Byte(if v != 0 then Join(Class16(Half(v, 0)), Class16(Half(v, 1)), Class16(Half(v, 2)), Class16(Half(v, 3))) else 0, k)
          == Class(Byte(v, k))
      {
        ClassifiedBytes(v, k);
        WordIsZero(v);
        ClassOfZero();
      }
      if v != 0 {
        mem[i] := Join(Class16(Half(v, 0)), Class16(Half(v, 1)), Class16(Half(v, 2)), Class16(Half(v, 3)));
      }
      i := i + 1;
    }
  }

  lemma ClassOfZero()
    ensures Class(0) == 0
  {
  }

  // ---------------------------------------------------------------------------------------------
  // Any sequence of traces

  lemma OnesFall(x: bv8, c: bv8)
    ensures Ones(Clear8(x, c)) <= Ones(x)
  {
  }

  lemma OnesDrop(x: bv8, c: bv8)
    requires Both8(c, x) != 0
    ensures Ones(Clear8(x, c)) < Ones(x)
  {
  }

  lemma WordOnesDrop(v: bv64, c: bv64)
    ensures WordOnes(Clear(v, c)) <= WordOnes(v)
    ensures PairIn(c, v) ==> WordOnes(Clear(v, c)) < WordOnes(v)
  {
    hide Byte, Clear8, Both8, Ones, Clear;
    forall k: nat | k < 8
      ensures Ones(Byte(Clear(v, c), k)) <= Ones(Byte(v, k)) && (NewPair(c, v, k) ==> Ones(Byte(Clear(v, c), k)) < Ones(Byte(v, k)))
    {
      ClearByte(v, c, k);
      OnesFall(Byte(v, k), Byte(c, k));
      if NewPair(c, v, k) { OnesDrop(Byte(v, k), Byte(c, k)); }
    }
  }

  lemma {:induction false} TotalDrops(v: Map, c: Map, v': Map)
    requires |v| == |c| == |v'| && forall w :: 0 <= w < |v| ==> v'[w] == Clear(v[w], c[w])
    ensures Total(v') <= Total(v)
    ensures (exists w :: 0 <= w < |v| && PairIn(c[w], v[w])) ==> Total(v') < Total(v)
  {
    hide WordOnes, PairIn, Clear;
    if v != [] {
      var n := |v| - 1;
      TotalDrops(v[..n], c[..n], v'[..n]);
      WordOnesDrop(v[n], c[n]);
      if exists w :: 0 <= w < |v| && PairIn(c[w], v[w]) {
        var w :| 0 <= w < |v| && PairIn(c[w], v[w]);
        if w < n { assert PairIn(c[..n][w], v[..n][w]); }
      }
    }
  }

  lemma {:induction false} TotalFull(v: Map)
    requires forall w :: 0 <= w < |v| ==> v[w] == 0xffff_ffff_ffff_ffff
    ensures Total(v) == 64 * |v|
  {
    if v != [] {
      TotalFull(v[..|v| - 1]);
      FullWord();
    }
  }

  lemma FullWord()
    ensures WordOnes(0xffff_ffff_ffff_ffff) == 64
    ensures forall k :: 0 <= k < 8 ==> Byte(0xffff_ffff_ffff_ffff, k) == 0xff
  {
  }

  /** An edge of the trace that no earlier one hit. */
  ghost predicate BringsEdge(hist: seq<Map>, trace: Map) {
    && Shaped(hist, |trace|)
    && exists w, k :: 0 <= w < |trace| && 0 <= k < 8 && At(trace, w, k) != 0 && !Hit(hist, |trace|, w, k)
  }

  /** An edge and hit count bucket of the trace that no earlier one showed. */
  ghost predicate BringsPair(hist: seq<Map>, trace: Map) {
    && Shaped(hist, |trace|)
    && exists w, k :: 0 <= w < |trace| && 0 <= k < 8 && At(trace, w, k) != 0
                      && !HitAs(hist, |trace|, w, k, Class(At(trace, w, k)))
  }

  lemma BucketOf(c: bv8) returns (j: nat)
    requires c != 0
    ensures j < 8 && Bucket(j) == Class(c)
  {
    j := if c == 1 then 0 else if c == 2 then 1 else if c == 3 then 2 else if c <= 7 then 3
         else if c <= 15 then 4 else if c <= 31 then 5 else if c <= 127 then 6 else 7;
  }

  lemma BothSwaps(x: bv8, y: bv8)
    ensures Both8(x, y) == Both8(y, x)
    ensures x == 0 ==> Both8(x, y) == 0
  {
  }

  /** The bytes the comparison looks at mean what they should. */
  lemma NewMeans(virgin: Map, hist: seq<Map>, trace: Map, cur: Map, w: nat, k: nat)
    requires VirginOk(virgin, hist) && |trace| == |cur| == |virgin| && w < |trace| && k < 8
    requires At(cur, w, k) == Class(At(trace, w, k))
    ensures NewEdge(cur[w], virgin[w], k) <==> At(trace, w, k) != 0 && !Hit(hist, |trace|, w, k)
    ensures NewPair(cur[w], virgin[w], k) <==>
      At(trace, w, k) != 0 && !HitAs(hist, |trace|, w, k, Class(At(trace, w, k)))
  {
    hide Byte, Class, Both8, Bucket, Hit, HitAs, VirginByte;
    var c := At(trace, w, k);
    ClassIsBucket(c, 0);
    PristineMeansUnhit(hist, |trace|, w, k);
    BothSwaps(Class(c), At(virgin, w, k));
    if c != 0 {
      var j := BucketOf(c);
      BitMeansUnseen(hist, |trace|, w, k, j);
    }
  }

  lemma VerdictMeans(virgin: Map, hist: seq<Map>, trace: Map, cur: Map)
    requires VirginOk(virgin, hist) && |trace| == |cur| == |virgin|
    requires forall w, k :: 0 <= w < |cur| && 0 <= k < 8 ==> At(cur, w, k) == Class(At(trace, w, k))
    ensures (exists w :: 0 <= w < |cur| && EdgeIn(cur[w], virgin[w])) <==> BringsEdge(hist, trace)
    ensures (exists w :: 0 <= w < |cur| && PairIn(cur[w], virgin[w])) <==> BringsPair(hist, trace)
  {
    hide VirginOk, NewEdge, NewPair, Hit, HitAs, Class, Byte;
    assert Shaped(hist, |trace|) by { VirginShaped(virgin, hist); }
    forall w, k: nat | 0 <= w < |cur| && k < 8
      ensures NewEdge(cur[w], virgin[w], k) <==> At(trace, w, k) != 0 && !Hit(hist, |trace|, w, k)
      ensures NewPair(cur[w], virgin[w], k) <==> At(trace, w, k) != 0 && !HitAs(hist, |trace|, w, k, Class(At(trace, w, k)))
    {
      NewMeans(virgin, hist, trace, cur, w, k);
    }
  }

  lemma VirginShaped(virgin: Map, hist: seq<Map>)
    requires VirginOk(virgin, hist)
    ensures Shaped(hist, |virgin|)
  {
  }

  lemma VirginStep(virgin: Map, hist: seq<Map>, trace: Map, cur: Map, virgin': Map)
    requires VirginOk(virgin, hist) && |trace| == |cur| == |virgin| == |virgin'|
    requires forall w, k :: 0 <= w < |cur| && 0 <= k < 8 ==> At(cur, w, k) == Class(At(trace, w, k))
    requires forall w :: 0 <= w < |virgin| ==> virgin'[w] == Clear(virgin[w], cur[w])
    ensures VirginOk(virgin', hist + [trace])
  {
    hide Byte, Class, Clear, Clear8;
    var hist' := hist + [trace];
    assert hist'[..|hist|] == hist;
    forall w, k | 0 <= w < |virgin'| && 0 <= k < 8 ensures At(virgin', w, k) == VirginByte(hist', |virgin'|, w, k) {
      ClearByte(virgin[w], cur[w], k);
    }
  }

  class Coverage {
    const virgin: array<bv64>
    ghost var history: seq<Map>
    /** Calls that reported something new. */
    ghost var novel: nat

    ghost predicate Valid()
      reads this, virgin
    {
      VirginOk(virgin[..], history) && novel + Total(virgin[..]) <= 64 * virgin.Length
    }

    /** An untouched virgin map of `words` words. */
    constructor (words: nat)
      ensures Valid() && fresh(virgin) && virgin.Length == words && history == [] && novel == 0
    {
      virgin := new bv64[words](_ => 0xffff_ffff_ffff_ffff);
      history, novel := [], 0;
      new;
      TotalFull(virgin[..]);
      FullWord();
    }

    /** A raw trace is classified and compared. The result is 2 exactly if it hits an edge for the first
        time, 1 exactly if otherwise only a hit count bucket is new, and 0 if nothing is. */
    method Examine(trace: array<bv64>) returns (ret: nat)
      requires Valid() && trace.Length == virgin.Length && trace != virgin
      modifies this, virgin, trace
      ensures Valid() && history == old(history) + [old(trace[..])]
      ensures ret <= 2
      ensures ret == 2 <==> BringsEdge(old(history), old(trace[..]))
      ensures ret >= 1 <==> BringsPair(old(history), old(trace[..]))
      ensures novel == old(novel) + (if ret > 0 then 1 else 0) <= 64 * virgin.Length
    {
      hide VirginOk, BringsEdge, BringsPair, Class, Byte, EdgeIn, PairIn, Clear, Total;
      ghost var raw, v0 := trace[..], virgin[..];
      ClassifyCounts(trace);
      ghost var cur := trace[..];
      ret := HasNewBits(trace, virgin);
      VerdictMeans(v0, history, raw, cur);
      VirginStep(v0, history, raw, cur, virgin[..]);
      TotalDrops(v0, cur, virgin[..]);
      history := history + [raw];
      novel := novel + if ret > 0 then 1 else 0;
    }
  }

  // ---------------------------------------------------------------------------------------------
  // The statistic shown to the user

  ghost function Seen(hist: seq<Map>, n: nat, w: nat, k: nat, j: nat): nat
    requires Shaped(hist, n) && w < n
  {
    if HitAs(hist, n, w, k, Bucket(j)) then 1 else 0
  }

  /** Buckets in which some trace hit the edge. */
  ghost function SeenOfByte(hist: seq<Map>, n: nat, w: nat, k: nat): nat
    requires Shaped(hist, n) && w < n
  {
    Seen(hist, n, w, k, 0) + Seen(hist, n, w, k, 1) + Seen(hist, n, w, k, 2) + Seen(hist, n, w, k, 3)
    + Seen(hist, n, w, k, 4) + Seen(hist, n, w, k, 5) + Seen(hist, n, w, k, 6) + Seen(hist, n, w, k, 7)
  }

  /** Pairs of edge and bucket seen among the first `m` words. */
  ghost function SeenPairs(hist: seq<Map>, n: nat, m: nat): nat
    requires Shaped(hist, n) && m <= n
  {
    if m == 0 then 0
    else SeenPairs(hist, n, m - 1)
         + SeenOfByte(hist, n, m - 1, 0) + SeenOfByte(hist, n, m - 1, 1) + SeenOfByte(hist, n, m - 1, 2) + SeenOfByte(hist, n, m - 1, 3)
         + SeenOfByte(hist, n, m - 1, 4) + SeenOfByte(hist, n, m - 1, 5) + SeenOfByte(hist, n, m - 1, 6) + SeenOfByte(hist, n, m - 1, 7)
  }

  lemma OnesBySeen(hist: seq<Map>, n: nat, w: nat, k: nat)
    requires Shaped(hist, n) && w < n && k < 8
    ensures Ones(VirginByte(hist, n, w, k)) + SeenOfByte(hist, n, w, k) == 8
  {
    hide HitAs, VirginByte;
    var b := VirginByte(hist, n, w, k);
    forall j: nat | j < 8 ensures Bit(b, Bucket(j)) + Seen(hist, n, w, k, j) == 1 {
      BitMeansUnseen(hist, n, w, k, j);
    }
    hide Bit, Seen;
    assert Bit(b, Bucket(0)) + Bit(b, Bucket(1)) + Bit(b, Bucket(2)) + Bit(b, Bucket(3))
         + Bit(b, Bucket(4)) + Bit(b, Bucket(5)) + Bit(b, Bucket(6)) + Bit(b, Bucket(7)) == Ones(b);
  }

  /** The virgin map's remaining bits and the pairs seen make up the whole map, so that eight bits per edge
      minus `count_bits` is the number of pairs seen. */
  lemma {:induction false} BitsAndPairs(virgin: Map, hist: seq<Map>, m: nat)
    requires VirginOk(virgin, hist) && m <= |virgin|
    ensures Total(virgin[..m]) + SeenPairs(hist, |virgin|, m) == 64 * m
  {
    hide Ones, SeenOfByte, VirginByte, Byte;
    if m > 0 {
      var p, n := m - 1, |virgin|;
      BitsAndPairs(virgin, hist, p);
      TotalSplit(virgin, p);
      forall k: nat | k < 8 ensures Ones(At(virgin, p, k)) + SeenOfByte(hist, n, p, k) == 8 {
        OnesBySeen(hist, n, p, k);
      }
    }
  }

  /** The statistic of the status screen: eight bits per edge minus `count_bits` of the virgin map is the
      number of pairs of edge and hit count bucket seen in all traces so far. */
  method PairsSeen(c: Coverage) returns (tBits: nat)
    requires c.Valid() && 64 * c.virgin.Length < TWO32
    ensures Shaped(c.history, c.virgin.Length)
    ensures tBits == SeenPairs(c.history, c.virgin.Length, c.virgin.Length)
  {
    hide SeenPairs, Total, VirginByte;
    var bits := CountBits(c.virgin);
    var n := c.virgin.Length;
    BitsAndPairs(c.virgin[..], c.history, n);
    assert c.virgin[..][..n] == c.virgin[..];
    tBits := 64 * n - bits;
  }
}
