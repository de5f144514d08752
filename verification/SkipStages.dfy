/** The 8-bit deterministic stages of `fuzz_one` (walking bit flips, walking byte flip with the effector
    map, arithmetics, interesting values) and the filter that lets the later stages skip values which
    the earlier ones must have tried. */
module SkipStages {
  import opened Wire

  type File = seq<bv8>

  const ARITH_MAX: bv8 := 35
  const EFF_MIN_LEN: nat := 128
  const EFF_MAX_PERC: nat := 90
  const INTERESTING_8: seq<bv8> := [128, 255, 0, 1, 16, 32, 64, 100, 127]

  // ---------------------------------------------------------------------------------------------
  // Flips

  /** Bit `k` of a byte, counted from the most significant. */
  function Mask(k: nat): bv8 {
    if k == 0 then 128 else if k == 1 then 64 else if k == 2 then 32 else if k == 3 then 16
    else if k == 4 then 8 else if k == 5 then 4 else if k == 6 then 2 else 1
  }

  function Xor(x: bv8, m: bv8): bv8 { x ^ m }

  function Plus(x: bv8, y: bv8): bv8 { x + y }

  function Minus(x: bv8, y: bv8): bv8 { x - y }

  function FlipBit(s: File, b: nat): (r: File)
    requires b < 8 * |s|
    ensures |r| == |s|
  {
    s[b / 8 := Xor(s[b / 8], Mask(b % 8))]
  }

  /** Bits `b` to `b + w - 1` flipped, first to last. */
  function FlipBits(s: File, b: nat, w: nat): (r: File)
    requires b + w <= 8 * |s|
    ensures |r| == |s|
    decreases w
  {
    if w == 0 then s else FlipBit(FlipBits(s, b, w - 1), b + w - 1)
  }

  lemma XorLaws(x: bv8, m: bv8, n: bv8)
    ensures Xor(Xor(x, m), n) == Xor(Xor(x, n), m) && Xor(Xor(x, m), m) == x
    ensures Xor(Xor(x, m), n) == Xor(x, Xor(m, n))
    ensures Xor(x, Xor(x, m)) == m
  {
  }

  lemma UpdatesCommute<T>(s: seq<T>, i: nat, j: nat, x: T, y: T)
    requires i < |s| && j < |s| && i != j
    ensures s[i := x][j := y] == s[j := y][i := x]
  {
  }

  lemma FlipsCommute(s: File, b: nat, c: nat)
    requires b < 8 * |s| && c < 8 * |s|
    ensures FlipBit(FlipBit(s, b), c) == FlipBit(FlipBit(s, c), b)
    ensures FlipBit(FlipBit(s, b), b) == s
  {
    hide Mask, Xor;
    var i, m, j, n := b / 8, Mask(b % 8), c / 8, Mask(c % 8);
    XorLaws(s[i], m, n);
    if i != j {
      UpdatesCommute(s, i, j, Xor(s[i], m), Xor(s[j], n));
    }
  }

  lemma {:induction false} FlipInside(s: File, b: nat, w: nat, c: nat)
    requires b + w <= 8 * |s| && c < 8 * |s|
    ensures FlipBits(FlipBit(s, c), b, w) == FlipBit(FlipBits(s, b, w), c)
    decreases w
  {
    hide FlipBit;
    if w > 0 {
      FlipInside(s, b, w - 1, c);
      FlipsCommute(FlipBits(s, b, w - 1), c, b + w - 1);
    }
  }

  /** Flipping the same bits again restores the file. */
  lemma {:induction false} FlipTwice(s: File, b: nat, w: nat)
    requires b + w <= 8 * |s|
    ensures FlipBits(FlipBits(s, b, w), b, w) == s
    decreases w
  {
    hide FlipBit;
    if w > 0 {
      var t := FlipBits(s, b, w - 1);
      FlipInside(t, b, w - 1, b + w - 1);
      FlipTwice(s, b, w - 1);
      FlipsCommute(s, b + w - 1, b + w - 1);
    }
  }

  function Window(k: nat, w: nat): bv8
    decreases w
  {
    if w == 0 then 0 else Xor(Window(k, w - 1), Mask(k + w - 1))
  }

  lemma BitOfByte(i: nat, k: nat)
    requires k < 8
    ensures (8 * i + k) / 8 == i && (8 * i + k) % 8 == k
  {
  }

  /** Flips within one byte are an xor of that byte. */
  lemma {:induction false} FlipWindow(s: File, i: nat, k: nat, w: nat)
    requires i < |s| && k + w <= 8
    ensures FlipBits(s, 8 * i + k, w) == s[i := Xor(s[i], Window(k, w))]
    decreases w
  {
    hide Mask, Xor, FlipBit;
    if w == 0 {
      XorNothing(s[i]);
    } else {
      FlipWindow(s, i, k, w - 1);
      FlipOfByte(s[i := Xor(s[i], Window(k, w - 1))], i, k + w - 1);
      XorLaws(s[i], Window(k, w - 1), Mask(k + w - 1));
      UpdateTwice(s, i, Xor(s[i], Window(k, w - 1)), Xor(s[i], Window(k, w)));
    }
  }

  lemma XorNothing(x: bv8)
    ensures Xor(x, 0) == x
  {
  }

  lemma FlipOfByte(s: File, i: nat, k: nat)
    requires i < |s| && k < 8
    ensures FlipBit(s, 8 * i + k) == s[i := Xor(s[i], Mask(k))]
  {
    hide Mask, Xor;
    BitOfByte(i, k);
  }

  lemma UpdateTwice<T>(s: seq<T>, i: nat, x: T, y: T)
    requires i < |s|
    ensures s[i := x][i := y] == s[i := y]
  {
  }

  // ---------------------------------------------------------------------------------------------
  // The filters

  /** `could_be_bitflip` after `sh` trailing zeroes were shifted out. */
  predicate FlipPattern(x: bv32, sh: nat)
    requires x != 0
    decreases x
  {
    if x & 1 == 0 then FlipPattern(x >> 1, sh + 1)
    else x == 1 || x == 3 || x == 15 || (sh % 8 == 0 && (x == 0xff || x == 0xffff || x == 0xffffffff))
  }

  method CouldBeBitflip(xorVal: bv32) returns (r: bool)
    ensures r <==> xorVal == 0 || FlipPattern(xorVal, 0)
  {
    if xorVal == 0 { return true; }
    var x, sh := xorVal, 0;
    while x & 1 == 0
      invariant x != 0 && sh >= 0 && FlipPattern(xorVal, 0) == FlipPattern(x, sh)
      decreases x
    {
      sh, x := sh + 1, x >> 1;
    }
    if x == 1 || x == 3 || x == 15 { return true; }
    if sh % 8 != 0 { return false; }
    return x == 0xff || x == 0xffff || x == 0xffffffff;
  }

  /** The one-, two- and four-bit windows of a byte. */
  predicate Small(x: bv32) {
    || x == 1 || x == 2 || x == 4 || x == 8 || x == 16 || x == 32 || x == 64 || x == 128
    || x == 3 || x == 6 || x == 12 || x == 24 || x == 48 || x == 96 || x == 192
    || x == 15 || x == 30 || x == 60 || x == 120 || x == 240
  }

  lemma SmallShift(x: bv32)
    requires x != 0 && x <= 0xff && x & 1 == 0
    ensures Small(x) <==> Small(x >> 1)
    ensures x >> 1 != 0 && x >> 1 <= 0x7f
  {
  }

  lemma {:induction false} PatternOfShifted(x: bv32, sh: nat)
    requires 0 < x <= 0x7f
    ensures FlipPattern(x, sh) <==> Small(x)
    decreases x
  {
    if x & 1 == 0 {
      SmallShift(x);
      PatternOfShifted(x >> 1, sh + 1);
    }
  }

  /** For a byte: exactly a small window, or all eight bits. */
  lemma PatternOfByte(x: bv32)
    requires 0 < x <= 0xff
    ensures FlipPattern(x, 0) <==> Small(x) || x == 0xff
  {
    if x & 1 == 0 {
      SmallShift(x);
      PatternOfShifted(x >> 1, 1);
    }
  }

  /** `could_be_arith` on single bytes. */
  predicate CouldBeArith(ov: bv8, nv: bv8) {
    ov == nv || Minus(ov, nv) <= ARITH_MAX || Minus(nv, ov) <= ARITH_MAX
  }

  predicate IsFlip(xor: bv8) {
    xor == 0 || FlipPattern(xor as bv32, 0)
  }

  /** Where the walking flips produce that change of a byte. */
  lemma SmallIsWindow(xor: bv8) returns (k: nat, w: nat)
    requires Small(xor as bv32)
    ensures (w == 1 || w == 2 || w == 4) && k + w <= 8 && Window(k, w) == xor
  {
    if xor == 128 || xor == 64 || xor == 32 || xor == 16 || xor == 8 || xor == 4 || xor == 2 || xor == 1 {
      w := 1;
      k := if xor == 128 then 0 else if xor == 64 then 1 else if xor == 32 then 2 else if xor == 16 then 3
           else if xor == 8 then 4 else if xor == 4 then 5 else if xor == 2 then 6 else 7;
    } else if xor == 192 || xor == 96 || xor == 48 || xor == 24 || xor == 12 || xor == 6 || xor == 3 {
      w := 2;
      k := if xor == 192 then 0 else if xor == 96 then 1 else if xor == 48 then 2 else if xor == 24 then 3
           else if xor == 12 then 4 else if xor == 6 then 5 else 6;
    } else {
      w := 4;
      k := if xor == 240 then 0 else if xor == 120 then 1 else if xor == 60 then 2 else if xor == 30 then 3 else 4;
      assert Window(k, 3) == Xor(Xor(Xor(Window(k, 0), Mask(k)), Mask(k + 1)), Mask(k + 2));
    }
  }

  // ---------------------------------------------------------------------------------------------
  // What has been executed

  /** The walking flips of width `w` have all been executed. */
  ghost predicate FlipsRun(s: File, w: nat, log: seq<File>) {
    forall b :: 0 <= b && b + w <= 8 * |s| ==> FlipBits(s, b, w) in log
  }

  ghost predicate BytesRun(s: File, log: seq<File>) {
    forall i :: 0 <= i < |s| ==> s[i := Xor(s[i], 0xff)] in log
  }

  ghost predicate AllFlipsRun(s: File, log: seq<File>) {
    FlipsRun(s, 1, log) && FlipsRun(s, 2, log) && FlipsRun(s, 4, log) && BytesRun(s, log)
  }

  /** The byte changed to `v` is the file itself or has been executed. */
  ghost predicate Tried(s: File, i: nat, v: bv8, log: seq<File>)
    requires i < |s|
  {
    v == s[i] || s[i := v] in log
  }

  /** The filter is right: what it takes for a flip was executed by a flip stage. */
  lemma FlipWasTried(s: File, i: nat, v: bv8, log: seq<File>)
    requires i < |s| && AllFlipsRun(s, log) && IsFlip(Xor(s[i], v))
    ensures Tried(s, i, v, log)
  {
    var xor := Xor(s[i], v);
    XorLaws(s[i], v, 0);
    if xor != 0 {
      ByteBounds(xor);
      PatternOfByte(xor as bv32);
      if xor == 0xff {
        assert s[i := Xor(s[i], 0xff)] in log;
      } else {
        hide Xor, FlipPattern, Small;
        var k, w := SmallIsWindow(xor);
        FlipWindow(s, i, k, w);
        assert FlipBits(s, 8 * i + k, w) in log;
      }
    }
  }

  lemma {:induction false} FlipsSplit(s: File, b: nat, w1: nat, w2: nat)
    requires b + w1 + w2 <= 8 * |s|
    ensures FlipBits(s, b, w1 + w2) == FlipBits(FlipBits(s, b, w1), b + w1, w2)
    decreases w2
  {
    hide FlipBit;
    if w2 > 0 { FlipsSplit(s, b, w1, w2 - 1); }
  }

  lemma WindowShape(k: nat, w: nat)
    requires 1 <= w <= 4 && k + w <= 8
    ensures Window(k, w) != 0
    ensures w != 3 ==> Small(Window(k, w) as bv32)
  {
    assert Window(k, 0) == 0;
    assert Window(k, 1) == Mask(k);
    assert Window(k, 2) == Xor(Mask(k), Mask(k + 1));
    assert Window(k, 3) == Xor(Xor(Mask(k), Mask(k + 1)), Mask(k + 2));
  }

  lemma XorMoves(x: bv8, m: bv8)
    requires m != 0
    ensures Xor(x, m) != x
  {
  }

  /** A window across a byte boundary changes both bytes. */
  lemma CrossingChangesBoth(s: File, b: nat, w: nat)
    requires (w == 2 || w == 4) && b + w <= 8 * |s| && b % 8 + w > 8
    ensures FlipBits(s, b, w)[b / 8] != s[b / 8] && FlipBits(s, b, w)[b / 8 + 1] != s[b / 8 + 1]
  {
    hide Xor, Window, FlipBits, Mask;
    var i, k := b / 8, b % 8;
    var w1 := 8 - k;
    FlipsSplit(s, b, w1, w - w1);
    FlipWindow(s, i, k, w1);
    WindowShape(k, w1);
    XorMoves(s[i], Window(k, w1));
    var t := FlipBits(s, b, w1);
    FlipWindow(t, i + 1, 0, w - w1);
    WindowShape(0, w - w1);
    XorMoves(t[i + 1], Window(0, w - w1));
  }

  /** And it takes nothing else for a flip: a file that a walking flip produces and that differs from the
      input in byte `i` alone differs there by what the filter recognises. */
  lemma FilterIsExact(s: File, i: nat, v: bv8, b: nat, w: nat)
    requires i < |s| && v != s[i] && (w == 1 || w == 2 || w == 4) && b + w <= 8 * |s|
    requires FlipBits(s, b, w) == s[i := v]
    ensures IsFlip(Xor(s[i], v))
  {
    hide FlipPattern, Xor, Window, FlipBits, Mask;
    if b % 8 + w > 8 {
      CrossingChangesBoth(s, b, w);
      assert false;
    }
    var k := b % 8;
    FlipWindow(s, b / 8, k, w);
    WindowShape(k, w);
    XorMoves(s[b / 8], Window(k, w));
    assert FlipBits(s, b, w)[b / 8] != s[b / 8];
    XorLaws(s[i], Window(k, w), 0);
    ByteBounds(Window(k, w));
    PatternOfByte(Window(k, w) as bv32);
  }

  lemma ByteBounds(x: bv8)
    ensures x as bv32 <= 0xff && (x as bv32 == 0 <==> x == 0) && (x as bv32 == 0xff <==> x == 0xff)
  {
  }

  // ---------------------------------------------------------------------------------------------
  // The stages, on the working buffer

  method FlipRange(a: array<bv8>, b: nat, w: nat)
    requires b + w <= 8 * a.Length
    modifies a
    ensures a[..] == FlipBits(old(a[..]), b, w)
  {
    hide Mask, Xor;
    var k := 0;
    while k < w
      invariant 0 <= k <= w && a[..] == FlipBits(old(a[..]), b, k)
    {
      var c := b + k;
      a[c / 8] := Xor(a[c / 8], Mask(c % 8));
      k := k + 1;
    }
  }

  /** The files of a walk, in order. */
  function Walk(s: File, w: nat, n: nat): seq<File>
    requires n + w <= 8 * |s| + 1
  {
    if n == 0 then [] else Walk(s, w, n - 1) + [FlipBits(s, n - 1, w)]
  }

  lemma {:induction false} WalkHas(s: File, w: nat, n: nat, b: nat)
    requires n + w <= 8 * |s| + 1 && b < n
    ensures FlipBits(s, b, w) in Walk(s, w, n)
  {
    hide FlipBits;
    if b < n - 1 { WalkHas(s, w, n - 1, b); }
  }

  /** `bitflip 1/1`, `2/1` and `4/1`: every window of `w` bits is flipped, run and flipped back. */
  method WalkingBits(a: array<bv8>, w: nat, log: seq<File>) returns (log': seq<File>)
    requires a.Length > 0 && (w == 1 || w == 2 || w == 4)
    modifies a
    ensures a[..] == old(a[..])
    ensures log' == log + Walk(a[..], w, 8 * a.Length + 1 - w)
    ensures FlipsRun(a[..], w, log')
  {
    hide FlipBits;
    var stageCur, stageMax := 0, 8 * a.Length - (w - 1);
    log' := log;
    ghost var s := a[..];
    while stageCur < stageMax
      invariant 0 <= stageCur <= stageMax && a[..] == s && log' == log + Walk(s, w, stageCur)
    {
      FlipRange(a, stageCur, w);
      log' := log' + [a[..]];
      FlipRange(a, stageCur, w);
      FlipTwice(s, stageCur, w);
      stageCur := stageCur + 1;
    }
    forall b | 0 <= b && b + w <= 8 * |s| ensures FlipBits(s, b, w) in log' { WalkHas(s, w, stageMax, b); }
  }

  function EffLen(len: nat): nat { len / 8 + if len % 8 == 0 then 0 else 1 }

  predicate Marked(eff: seq<bool>, i: nat) { i / 8 < |eff| && eff[i / 8] }

  /** Inverting that byte counts as having changed the path. */
  predicate HasEffect(effects: seq<bool>, i: nat, dumb: bool)
    requires i < |effects|
  {
    effects[i] || dumb || |effects| < EFF_MIN_LEN
  }

  /** Group `g` of eight bytes holds the first byte, the last one, or one of the first `n` that had an effect. */
  ghost predicate Wanted(effects: seq<bool>, dumb: bool, n: nat, g: nat)
    requires n <= |effects|
  {
    g == 0 || g == (|effects| - 1) / 8 || exists i :: 0 <= i < n && i / 8 == g && HasEffect(effects, i, dumb)
  }

  function Count(eff: seq<bool>): nat {
    if eff == [] then 0 else Count(eff[..|eff| - 1]) + if eff[|eff| - 1] then 1 else 0
  }

  lemma {:induction false} CountMore(eff: seq<bool>, g: nat)
    requires g < |eff| && !eff[g]
    ensures Count(eff[g := true]) == Count(eff) + 1
  {
    var n := |eff| - 1;
    if g == n {
      assert eff[g := true][..n] == eff[..n];
    } else {
      assert eff[g := true][..n] == eff[..n][g := true];
      CountMore(eff[..n], g);
    }
  }

  lemma {:induction false} CountNone(n: nat)
    ensures Count(seq(n, _ => false)) == 0
  {
    if n > 0 {
      CountNone(n - 1);
      assert seq(n, _ => false)[..n - 1] == seq(n - 1, _ => false);
    }
  }

  /** Nine tenths of the groups are marked, but not all. */
  predicate Dense(eff: seq<bool>)
    requires eff != []
  {
    Count(eff) != |eff| && Count(eff) * 100 / |eff| > EFF_MAX_PERC
  }

  /** The map marks exactly the groups that are wanted. */
  ghost predicate Marks(eff: seq<bool>, effects: seq<bool>, dumb: bool, n: nat)
    requires n <= |effects|
  {
    |eff| == EffLen(|effects|) && forall g :: 0 <= g < |eff| ==> (eff[g] <==> Wanted(effects, dumb, n, g))
  }

  lemma MarkMore(eff: seq<bool>, effects: seq<bool>, dumb: bool, i: nat)
    requires i < |effects| && Marks(eff, effects, dumb, i)
    ensures i / 8 < |eff|
    ensures Marks(if HasEffect(effects, i, dumb) then eff[i / 8 := true] else eff, effects, dumb, i + 1)
  {
    hide HasEffect;
    var eff' := if HasEffect(effects, i, dumb) then eff[i / 8 := true] else eff;
    forall g | 0 <= g < |eff| ensures eff'[g] <==> Wanted(effects, dumb, i + 1, g) {
      if Wanted(effects, dumb, i + 1, g) && !Wanted(effects, dumb, i, g) {
        var k :| 0 <= k < i + 1 && k / 8 == g && HasEffect(effects, k, dumb);
        assert k == i;
      }
      if Wanted(effects, dumb, i, g) && g != 0 && g != (|effects| - 1) / 8 {
        var k :| 0 <= k < i && k / 8 == g && HasEffect(effects, k, dumb);
        assert Wanted(effects, dumb, i + 1, g);
      }
    }
  }

  lemma FirstMarks(eff: seq<bool>, effects: seq<bool>, dumb: bool)
    requires effects != [] && |eff| == EffLen(|effects|)
    requires forall g :: 0 <= g < |eff| ==> (eff[g] <==> g == 0 || g == (|effects| - 1) / 8)
    ensures Marks(eff, effects, dumb, 0)
  {
  }

  /** Everything that had an effect is marked. */
  lemma MarksAll(eff: seq<bool>, effects: seq<bool>, dumb: bool)
    requires effects != [] && Marks(eff, effects, dumb, |effects|)
    ensures Marked(eff, 0) && Marked(eff, |effects| - 1)
    ensures forall i :: 0 <= i < |effects| && HasEffect(effects, i, dumb) ==> Marked(eff, i)
  {
    hide HasEffect;
    forall i | 0 <= i < |effects| && HasEffect(effects, i, dumb) ensures Marked(eff, i) {
      assert i / 8 < |eff|;
      assert Wanted(effects, dumb, |effects|, i / 8);
    }
  }

  /** The files of the byte walk, in order. */
  function ByteWalk(s: File, n: nat): seq<File>
    requires n <= |s|
  {
    if n == 0 then [] else ByteWalk(s, n - 1) + [s[n - 1 := Xor(s[n - 1], 0xff)]]
  }

  lemma {:induction false} ByteWalkHas(s: File, n: nat, i: nat)
    requires i < n <= |s|
    ensures s[i := Xor(s[i], 0xff)] in ByteWalk(s, n)
  {
    hide Xor;
    if i < n - 1 { ByteWalkHas(s, n - 1, i); }
  }

  lemma ByteWalkRuns(s: File, log: seq<File>)
    ensures BytesRun(s, log + ByteWalk(s, |s|))
  {
    hide Xor, ByteWalk;
    forall i | 0 <= i < |s| ensures s[i := Xor(s[i], 0xff)] in log + ByteWalk(s, |s|) { ByteWalkHas(s, |s|, i); }
  }

  /** Marked are exactly the wanted groups; or all of them, if those are nearly all. */
  ghost predicate EffectorMap(eff: seq<bool>, effects: seq<bool>, dumb: bool) {
    exists base :: base != [] && Marks(base, effects, dumb, |effects|) && eff == Filled(base)
  }

  function Filled(base: seq<bool>): seq<bool>
    requires base != []
  {
    if Dense(base) then seq(|base|, _ => true) else base
  }

  lemma EffectorMapMarks(eff: seq<bool>, effects: seq<bool>, dumb: bool)
    requires effects != [] && EffectorMap(eff, effects, dumb)
    ensures |eff| == EffLen(|effects|) && Marked(eff, 0) && Marked(eff, |effects| - 1)
    ensures forall i :: 0 <= i < |effects| && HasEffect(effects, i, dumb) ==> Marked(eff, i)
  {
    hide HasEffect, Dense;
    var base :| base != [] && Marks(base, effects, dumb, |effects|) && eff == Filled(base);
    MarksAll(base, effects, dumb);
    assert forall i :: Marked(base, i) ==> Marked(eff, i);
  }

  /** The first and the last group are marked from the start. */
  method NewMap(effects: seq<bool>, dumb: bool) returns (eff: seq<bool>, effCnt: nat)
    requires effects != []
    ensures Marks(eff, effects, dumb, 0) && effCnt == Count(eff)
  {
    hide Count, HasEffect;
    var len := |effects|;
    CountNone(EffLen(len));
    CountMore(seq(EffLen(len), _ => false), 0);
    eff, effCnt := seq(EffLen(len), _ => false)[0 := true], 1;
    if (len - 1) / 8 != 0 {
      CountMore(eff, (len - 1) / 8);
      eff := eff[(len - 1) / 8 := true];
      effCnt := effCnt + 1;
    }
    FirstMarks(eff, effects, dumb);
  }

  /** Byte `i` has been inverted and run. */
  method MarkByte(eff: seq<bool>, effCnt: nat, effects: seq<bool>, dumb: bool, i: nat) returns (eff': seq<bool>, effCnt': nat)
    requires i < |effects| && Marks(eff, effects, dumb, i) && effCnt == Count(eff)
    ensures Marks(eff', effects, dumb, i + 1) && effCnt' == Count(eff')
  {
    hide Count, HasEffect, Marks;
    eff', effCnt' := eff, effCnt;
    MarkMore(eff, effects, dumb, i);
    if !eff[i / 8] {
      if HasEffect(effects, i, dumb) {
        CountMore(eff, i / 8);
        eff', effCnt' := eff[i / 8 := true], effCnt + 1;
      }
    } else {
      assert eff[i / 8 := true] == eff;
    }
  }

  /** `bitflip 8/8`: every byte is inverted, run and inverted back. `effects[i]` tells whether that changed
      the path. Marked are exactly the groups of eight with such a byte, the first and the last one; or all of
      them, if that is nearly all. */
  method WalkingBytes(a: array<bv8>, effects: seq<bool>, dumb: bool, log: seq<File>)
      returns (log': seq<File>, eff: seq<bool>)
    requires a.Length > 0 && |effects| == a.Length
    modifies a
    ensures a[..] == old(a[..])
    ensures log' == log + ByteWalk(a[..], a.Length) && BytesRun(a[..], log')
    ensures |eff| == EffLen(a.Length) && Marked(eff, 0) && Marked(eff, a.Length - 1)
    ensures forall i :: 0 <= i < a.Length && HasEffect(effects, i, dumb) ==> Marked(eff, i)
    ensures EffectorMap(eff, effects, dumb)
  {
    hide Xor, Count, HasEffect, Marks, EffectorMap;
    var len := a.Length;
    var effCnt;
    eff, effCnt := NewMap(effects, dumb);
    log' := log;
    ghost var s := a[..];
    var i := 0;
    while i < len
      invariant 0 <= i <= len && a[..] == s && log' == log + ByteWalk(s, i)
      invariant Marks(eff, effects, dumb, i) && effCnt == Count(eff)
    {
      XorLaws(a[i], 0xff, 0);
      a[i] := Xor(a[i], 0xff);
      log' := log' + [a[..]];
      assert a[..] == s[i := Xor(s[i], 0xff)];
      eff, effCnt := MarkByte(eff, effCnt, effects, dumb, i);
      a[i] := Xor(a[i], 0xff);
      i := i + 1;
    }
    ByteWalkRuns(s, log);
    FilledMap(eff, effects, dumb);
    if effCnt != EffLen(len) && effCnt * 100 / EffLen(len) > EFF_MAX_PERC {
      eff := seq(EffLen(len), _ => true);
    }
    EffectorMapMarks(eff, effects, dumb);
  }

  lemma FilledMap(base: seq<bool>, effects: seq<bool>, dumb: bool)
    requires effects != [] && Marks(base, effects, dumb, |effects|)
    ensures |base| == EffLen(|effects|) > 0 && EffectorMap(Filled(base), effects, dumb)
  {
  }

  method SkipsFlip(old_: bv8, new_: bv8) returns (skip: bool)
    ensures skip <==> IsFlip(Xor(old_, new_))
  {
    var x := Xor(old_, new_);
    hide Xor;
    ByteBounds(x);
    skip := CouldBeBitflip(x as bv32);
  }

  /** A difference of less than `j`, up or down, but not none. */
  predicate Short(d: bv8, j: bv8) { d != 0 && (d < j || 0 - d < j) }

  /** `v` lies within `j - 1` steps of `o`, but is not `o`. */
  predicate Near(o: bv8, v: bv8, j: bv8) { Short(Minus(v, o), j) }

  lemma ShortStep(d: bv8, j: bv8)
    requires 1 <= j <= 35
    ensures Short(d, j + 1) <==> Short(d, j) || d == j || d == 0 - j
    ensures !Short(d, 1)
  {
  }

  lemma PlusIsDifference(o: bv8, v: bv8, j: bv8)
    ensures Minus(v, o) == j ==> v == Plus(o, j)
  {
  }

  lemma DifferenceIsPlus(o: bv8, j: bv8)
    ensures Minus(Plus(o, j), o) == j
  {
  }

  lemma MinusIsDifference(o: bv8, v: bv8, j: bv8)
    requires Minus(v, o) == 0 - j
    ensures v == Minus(o, j)
  {
  }

  lemma DifferenceIsMinus(o: bv8, j: bv8)
    ensures Minus(Minus(o, j), o) == 0 - j
  {
  }

  lemma Opposite(o: bv8, v: bv8)
    ensures (Minus(v, o) == 0 <==> v == o) && 0 - Minus(v, o) == Minus(o, v)
  {
  }

  lemma NearStep(o: bv8, v: bv8, j: bv8)
    requires 1 <= j <= ARITH_MAX
    ensures Near(o, v, j + 1) <==> Near(o, v, j) || v == Plus(o, j) || v == Minus(o, j)
    ensures !Near(o, v, 1)
  {
    hide Short, Plus, Minus;
    ShortStep(Minus(v, o), j);
    PlusIsDifference(o, v, j);
    DifferenceIsPlus(o, j);
    if Minus(v, o) == 0 - j { MinusIsDifference(o, v, j); }
    DifferenceIsMinus(o, j);
  }

  lemma ShortIsArith(d: bv8)
    ensures Short(d, 36) <==> d != 0 && (0 - d <= 35 || d <= 35)
  {
  }

  lemma NearIsArith(o: bv8, v: bv8)
    ensures Near(o, v, ARITH_MAX + 1) <==> CouldBeArith(o, v) && v != o
  {
    hide Short, Minus;
    ShortIsArith(Minus(v, o));
    Opposite(o, v);
  }

  /** Every value near byte `i` that is not a flip has been run. */
  ghost predicate ArithRun(s: File, i: nat, j: bv8, log: seq<File>)
    requires i < |s|
  {
    forall v: bv8 :: Near(s[i], v, j) ==> IsFlip(Xor(s[i], v)) || s[i := v] in log
  }

  /** A file to run, unless it is skipped. */
  function Unless(skip: bool, t: File): seq<File> {
    if skip then [] else [t]
  }

  /** What the arithmetic stage runs for byte `i`, for steps below `j`, in order. */
  function ArithFiles(s: File, i: nat, j: bv8): seq<File>
    requires i < |s|
    decreases j
  {
    if j <= 1 then []
    else
      var up, down := Plus(s[i], j - 1), Minus(s[i], j - 1);
      ArithFiles(s, i, j - 1) + (Unless(IsFlip(Xor(s[i], up)), s[i := up]) + Unless(IsFlip(Xor(s[i], down)), s[i := down]))
  }

  /** The same for all marked bytes below `n`. */
  function ArithAll(s: File, eff: seq<bool>, n: nat): seq<File>
    requires n <= |s|
  {
    if n == 0 then [] else ArithAll(s, eff, n - 1) + if Marked(eff, n - 1) then ArithFiles(s, n - 1, ARITH_MAX + 1) else []
  }

  lemma ArithFilesStep(s: File, i: nat, j: bv8)
    requires i < |s| && 1 <= j <= ARITH_MAX
    ensures var up, down := Plus(s[i], j), Minus(s[i], j);
      ArithFiles(s, i, j + 1) ==
        ArithFiles(s, i, j) + (Unless(IsFlip(Xor(s[i], up)), s[i := up]) + Unless(IsFlip(Xor(s[i], down)), s[i := down]))
  {
    hide IsFlip, Xor, Plus, Minus;
    assert j + 1 - 1 == j && j + 1 > 1;
  }

  /** Byte `i` is set to `v` and the file is run, unless a flip has made it. */
  method TryArith(a: array<bv8>, i: nat, orig: bv8, v: bv8, log: seq<File>) returns (log': seq<File>)
    requires i < a.Length
    modifies a
    ensures log' == log + Unless(IsFlip(Xor(orig, v)), old(a[..])[i := v])
    ensures a[..] == if IsFlip(Xor(orig, v)) then old(a[..]) else old(a[..])[i := v]
  {
    hide IsFlip, Xor;
    log' := log;
    var skip := SkipsFlip(orig, v);
    if !skip {
      a[i] := v;
      log' := log' + [a[..]];
      assert a[..] == old(a[..])[i := v];
    }
  }

  lemma {:induction false} ArithFilesRun(s: File, i: nat, j: bv8, log: seq<File>)
    requires i < |s| && 1 <= j <= ARITH_MAX + 1
    ensures ArithRun(s, i, j, log + ArithFiles(s, i, j))
    decreases j
  {
    hide IsFlip, Xor, Near, Plus, Minus, ArithFiles;
    if j == 1 {
      forall v: bv8 ensures !Near(s[i], v, 1) { NearStep(s[i], v, 1); }
    } else {
      ArithFilesRun(s, i, j - 1, log);
      ArithTurnRuns(s, i, j - 1, log);
      assert j - 1 + 1 == j;
    }
  }

  lemma ArithTurnRuns(s: File, i: nat, j: bv8, log: seq<File>)
    requires i < |s| && 1 <= j <= ARITH_MAX && ArithRun(s, i, j, log + ArithFiles(s, i, j))
    ensures ArithRun(s, i, j + 1, log + ArithFiles(s, i, j + 1))
  {
    hide IsFlip, Xor, Near, Plus, Minus, ArithFiles;
    ArithFilesStep(s, i, j);
    var log' := log + ArithFiles(s, i, j + 1);
    forall v: bv8 | Near(s[i], v, j + 1) ensures IsFlip(Xor(s[i], v)) || s[i := v] in log' {
      NearStep(s[i], v, j);
    }
  }

  /** One turn of the inner loop: the step up, the step down, and the byte set back. */
  method ArithTurn(a: array<bv8>, i: nat, j: bv8, log: seq<File>) returns (log': seq<File>)
    requires i < a.Length
    modifies a
    ensures a[..] == old(a[..])
    ensures var s := a[..];
      var up, down := Plus(s[i], j), Minus(s[i], j);
      log' == log + (Unless(IsFlip(Xor(s[i], up)), s[i := up]) + Unless(IsFlip(Xor(s[i], down)), s[i := down]))
  {
    hide IsFlip, Xor, Plus, Minus;
    var orig := a[i];
    ghost var s := a[..];
    log' := TryArith(a, i, orig, Plus(orig, j), log);
    assert a[..][i := Minus(orig, j)] == s[i := Minus(orig, j)];
    log' := TryArith(a, i, orig, Minus(orig, j), log');
    a[i] := orig;
    assert a[..] == s;
  }

  method ArithByte(a: array<bv8>, i: nat, log: seq<File>) returns (log': seq<File>)
    requires i < a.Length
    modifies a
    ensures a[..] == old(a[..]) && log' == log + ArithFiles(a[..], i, ARITH_MAX + 1)
    ensures ArithRun(a[..], i, ARITH_MAX + 1, log')
  {
    hide IsFlip, Xor, Plus, Minus, ArithFiles, Unless, ArithRun;
    log' := log;
    var j: bv8 := 1;
    ghost var s := a[..];
    NoArithFiles(s, i);
    while j != ARITH_MAX + 1
      invariant 1 <= j <= ARITH_MAX + 1 && a[..] == s && log' == log + ArithFiles(s, i, j)
      decreases ARITH_MAX + 1 - j
    {
      log' := ArithTurn(a, i, j, log');
      ArithFilesStep(s, i, j);
      j := j + 1;
    }
    ArithFilesRun(s, i, ARITH_MAX + 1, log);
  }

  lemma NoArithFiles(s: File, i: nat)
    requires i < |s|
    ensures ArithFiles(s, i, 1) == []
  {
  }

  /** `arith 8/8` */
  method Arith8(a: array<bv8>, eff: seq<bool>, log: seq<File>) returns (log': seq<File>)
    requires |eff| == EffLen(a.Length)
    modifies a
    ensures a[..] == old(a[..]) && log' == log + ArithAll(a[..], eff, a.Length)
    ensures forall i :: 0 <= i < a.Length && Marked(eff, i) ==> ArithRun(a[..], i, ARITH_MAX + 1, log')
  {
    hide ArithRun, ArithFiles;
    log' := log;
    ghost var s := a[..];
    for i := 0 to a.Length
      invariant a[..] == s && log' == log + ArithAll(s, eff, i)
      invariant forall k :: 0 <= k < i && Marked(eff, k) ==> ArithRun(s, k, ARITH_MAX + 1, log')
    {
      if eff[i / 8] {
        ghost var log1 := log';
        log' := ArithByte(a, i, log');
        forall k | 0 <= k < i && Marked(eff, k) ensures ArithRun(s, k, ARITH_MAX + 1, log') {
          ArithRunGrows(s, k, ARITH_MAX + 1, log1, log');
        }
      }
    }
  }

  lemma ArithRunGrows(s: File, i: nat, j: bv8, log: seq<File>, log': seq<File>)
    requires i < |s| && ArithRun(s, i, j, log) && log <= log'
    ensures ArithRun(s, i, j, log')
  {
    hide IsFlip, Near, Xor;
  }

  /** The interesting values from `k` on have been run for byte `i`, unless filtered. */
  ghost predicate InterestRun(s: File, i: nat, k: nat, log: seq<File>)
    requires i < |s|
  {
    forall j :: 0 <= j < k && j < |INTERESTING_8| ==>
      var v := INTERESTING_8[j];
      IsFlip(Xor(s[i], v)) || CouldBeArith(s[i], v) || s[i := v] in log
  }

  /** What the stage runs for byte `i`, for the first `k` values, in order. */
  function InterestFiles(s: File, i: nat, k: nat): seq<File>
    requires i < |s| && k <= |INTERESTING_8|
  {
    if k == 0 then []
    else
      var v := INTERESTING_8[k - 1];
      InterestFiles(s, i, k - 1) + Unless(IsFlip(Xor(s[i], v)) || CouldBeArith(s[i], v), s[i := v])
  }

  function InterestAll(s: File, eff: seq<bool>, n: nat): seq<File>
    requires n <= |s|
  {
    if n == 0 then []
    else InterestAll(s, eff, n - 1) + if Marked(eff, n - 1) then InterestFiles(s, n - 1, |INTERESTING_8|) else []
  }

  lemma {:induction false} InterestFilesRun(s: File, i: nat, k: nat, log: seq<File>)
    requires i < |s| && k <= |INTERESTING_8|
    ensures InterestRun(s, i, k, log + InterestFiles(s, i, k))
  {
    hide IsFlip, Xor, CouldBeArith;
    if k > 0 {
      InterestFilesRun(s, i, k - 1, log);
      var log', log'' := log + InterestFiles(s, i, k - 1), log + InterestFiles(s, i, k);
      assert log' <= log'';
    }
  }

  /** Byte `i` is set to `v`, the file is run, and the byte is set back. */
  method TryValue(a: array<bv8>, i: nat, v: bv8, log: seq<File>) returns (log': seq<File>)
    requires i < a.Length
    modifies a
    ensures a[..] == old(a[..]) && log' == log + [a[..][i := v]]
  {
    var orig := a[i];
    a[i] := v;
    log' := log + [a[..]];
    assert a[..] == old(a[..])[i := v];
    a[i] := orig;
    assert a[..] == old(a[..]);
  }

  method InterestByte(a: array<bv8>, i: nat, log: seq<File>) returns (log': seq<File>)
    requires i < a.Length
    modifies a
    ensures a[..] == old(a[..]) && log' == log + InterestFiles(a[..], i, |INTERESTING_8|)
    ensures InterestRun(a[..], i, |INTERESTING_8|, log')
  {
    hide IsFlip, Xor, CouldBeArith, InterestRun;
    log' := log;
    ghost var s := a[..];
    for j := 0 to |INTERESTING_8|
      invariant a[..] == s && log' == log + InterestFiles(s, i, j)
    {
      var v := INTERESTING_8[j];
      var skip := SkipsFlip(a[i], v);
      if !skip && !CouldBeArith(a[i], v) {
        log' := TryValue(a, i, v, log');
      }
    }
    InterestFilesRun(s, i, |INTERESTING_8|, log);
  }

  /** `interest 8/8` */
  method Interest8(a: array<bv8>, eff: seq<bool>, log: seq<File>) returns (log': seq<File>)
    requires |eff| == EffLen(a.Length)
    modifies a
    ensures a[..] == old(a[..]) && log' == log + InterestAll(a[..], eff, a.Length)
    ensures forall i :: 0 <= i < a.Length && Marked(eff, i) ==> InterestRun(a[..], i, |INTERESTING_8|, log')
  {
    hide InterestRun, InterestFiles;
    log' := log;
    ghost var s := a[..];
    for i := 0 to a.Length
      invariant a[..] == s && log' == log + InterestAll(s, eff, i)
      invariant forall k :: 0 <= k < i && Marked(eff, k) ==> InterestRun(s, k, |INTERESTING_8|, log')
    {
      if eff[i / 8] {
        ghost var log1 := log';
        log' := InterestByte(a, i, log');
        forall k | 0 <= k < i && Marked(eff, k) ensures InterestRun(s, k, |INTERESTING_8|, log') {
          InterestRunGrows(s, k, log1, log');
        }
      }
    }
  }

  lemma InterestRunGrows(s: File, i: nat, log: seq<File>, log': seq<File>)
    requires i < |s| && InterestRun(s, i, |INTERESTING_8|, log) && log <= log'
    ensures InterestRun(s, i, |INTERESTING_8|, log')
  {
    hide IsFlip, CouldBeArith, Xor;
  }

  // ---------------------------------------------------------------------------------------------
  // Nothing is lost

  /** At a marked byte, every value within arithmetic reach and every interesting value gives a file that
      is the input itself or has been executed. */
  lemma NothingSkippedIsLost(s: File, i: nat, v: bv8, log: seq<File>)
    requires i < |s| && AllFlipsRun(s, log)
    requires ArithRun(s, i, ARITH_MAX + 1, log) && InterestRun(s, i, |INTERESTING_8|, log)
    requires CouldBeArith(s[i], v) || v in INTERESTING_8
    ensures Tried(s, i, v, log)
  {
    hide IsFlip, Xor, CouldBeArith, Near, AllFlipsRun;
    if IsFlip(Xor(s[i], v)) {
      FlipWasTried(s, i, v, log);
    } else {
      NearIsArith(s[i], v);
    }
  }

  predicate Interesting(v: bv8, k: nat) { k <= |INTERESTING_8| && v in INTERESTING_8[..k] }

  function ValueAt(k: nat): bv8
    requires k < |INTERESTING_8|
  {
    INTERESTING_8[k]
  }

  lemma InterestingStep(v: bv8, k: nat)
    requires k < |INTERESTING_8|
    ensures Interesting(v, k + 1) <==> Interesting(v, k) || v == ValueAt(k)
  {
    assert INTERESTING_8[..k + 1] == INTERESTING_8[..k] + [INTERESTING_8[k]];
  }

  ghost predicate InterestFile(s: File, i: nat, k: nat, f: File, v: bv8)
    requires i < |s|
  {
    Interesting(v, k) && !IsFlip(Xor(s[i], v)) && !CouldBeArith(s[i], v) && f == s[i := v]
  }

  lemma InterestFilesStep(s: File, i: nat, k: nat, f: File)
    requires i < |s| && k < |INTERESTING_8|
    ensures var w := ValueAt(k);
      f in InterestFiles(s, i, k + 1) <==>
        f in InterestFiles(s, i, k) || (!IsFlip(Xor(s[i], w)) && !CouldBeArith(s[i], w) && f == s[i := w])
  {
    hide IsFlip, Xor, CouldBeArith;
  }

  /** The files of the interesting values, as a set. */
  lemma {:induction false} InterestFilesAre(s: File, i: nat, k: nat, f: File)
    requires i < |s| && k <= |INTERESTING_8|
    ensures f in InterestFiles(s, i, k) <==> exists v :: InterestFile(s, i, k, f, v)
  {
    hide IsFlip, Xor, CouldBeArith, Interesting, ValueAt;
    if k > 0 {
      var k0 := k - 1;
      var w := ValueAt(k0);
      InterestFilesAre(s, i, k0, f);
      InterestFilesStep(s, i, k0, f);
      hide InterestFiles;
      forall v ensures Interesting(v, k) <==> Interesting(v, k0) || v == w { InterestingStep(v, k0); }
      if v :| InterestFile(s, i, k, f, v) { assert v == w || InterestFile(s, i, k0, f, v); }
      if v :| InterestFile(s, i, k0, f, v) { assert InterestFile(s, i, k, f, v); }
      if !IsFlip(Xor(s[i], w)) && !CouldBeArith(s[i], w) && f == s[i := w] { assert InterestFile(s, i, k, f, w); }
    } else {
      forall v ensures !Interesting(v, 0) { NoneInteresting(v); }
    }
  }

  lemma NoneInteresting(v: bv8)
    ensures !Interesting(v, 0)
  {
  }

  /** The files of the arithmetic stage, as a set. */
  lemma {:induction false} ArithFilesAre(s: File, i: nat, j: bv8, f: File)
    requires i < |s| && 1 <= j <= ARITH_MAX + 1
    ensures f in ArithFiles(s, i, j) <==> exists v :: ArithFile(s, i, j, f, v)
    decreases j
  {
    hide IsFlip, Xor, Near, Plus, Minus;
    if j > 1 {
      ArithFilesAre(s, i, j - 1, f);
      var up, down := Plus(s[i], j - 1), Minus(s[i], j - 1);
      forall v ensures Near(s[i], v, j) <==> Near(s[i], v, j - 1) || v == up || v == down { NearStep(s[i], v, j - 1); }
      assert f in ArithFiles(s, i, j) <==>
        f in ArithFiles(s, i, j - 1) || (!IsFlip(Xor(s[i], up)) && f == s[i := up]) || (!IsFlip(Xor(s[i], down)) && f == s[i := down]);
      if v :| ArithFile(s, i, j, f, v) { assert v == up || v == down || ArithFile(s, i, j - 1, f, v); }
      var j0 := j - 1;
      if v :| ArithFile(s, i, j0, f, v) { assert ArithFile(s, i, j, f, v); }
      assert !IsFlip(Xor(s[i], up)) && f == s[i := up] ==> ArithFile(s, i, j, f, up);
      assert !IsFlip(Xor(s[i], down)) && f == s[i := down] ==> ArithFile(s, i, j, f, down);
    } else {
      forall v ensures !Near(s[i], v, 1) { NotNear(s[i], v); }
    }
  }

  lemma NotNear(o: bv8, v: bv8)
    ensures !Near(o, v, 1)
  {
  }

  ghost predicate ArithFile(s: File, i: nat, j: bv8, f: File, v: bv8)
    requires i < |s|
  {
    Near(s[i], v, j) && !IsFlip(Xor(s[i], v)) && f == s[i := v]
  }

  /** The filters let nothing through that was run before: a file of the last stage is no walking flip and none of the
      arithmetic files of any byte. */
  lemma NothingRunTwice(s: File, i: nat, f: File, b: nat, w: nat, i': nat)
    requires i < |s| && f in InterestFiles(s, i, |INTERESTING_8|) && i' < |s|
    requires (w == 1 || w == 2 || w == 4) && b + w <= 8 * |s|
    ensures f != FlipBits(s, b, w) && f !in ArithFiles(s, i', ARITH_MAX + 1)
  {
    hide IsFlip, Xor, CouldBeArith, FlipBits, Near;
    InterestFilesAre(s, i, |INTERESTING_8|, f);
    var v :| InterestFile(s, i, |INTERESTING_8|, f, v);
    SameIsFlip(s[i]);
    assert f[i] == v != s[i];
    if f == FlipBits(s, b, w) { FilterIsExact(s, i, v, b, w); }
    if f in ArithFiles(s, i', ARITH_MAX + 1) {
      ArithFilesAre(s, i', ARITH_MAX + 1, f);
      var u :| ArithFile(s, i', ARITH_MAX + 1, f, u);
      NearIsArith(s[i'], u);
    }
  }

  lemma SameIsFlip(x: bv8)
    ensures IsFlip(Xor(x, x))
  {
    XorNothing(x);
    XorLaws(x, 0, 0);
  }

  /** The bit flips and the 8-bit stages in order, without the wider stages that the fuzzer runs in between.
      The buffer is the input again after each of them, and the filters have cost nothing. */
  method Deterministic(a: array<bv8>, effects: seq<bool>, dumb: bool) returns (log: seq<File>, eff: seq<bool>)
    requires a.Length > 0 && |effects| == a.Length
    modifies a
    ensures a[..] == old(a[..]) && |eff| == EffLen(a.Length)
    ensures var s, n := a[..], a.Length;
      log == Walk(s, 1, 8 * n) + Walk(s, 2, 8 * n - 1) + Walk(s, 4, 8 * n - 3)
             + ByteWalk(s, n) + ArithAll(s, eff, n) + InterestAll(s, eff, n)
    ensures forall i, v :: 0 <= i < a.Length && Marked(eff, i) && (CouldBeArith(a[i], v) || v in INTERESTING_8) ==>
      Tried(a[..], i, v, log)
    ensures forall i :: 0 <= i < a.Length && HasEffect(effects, i, dumb) ==> Marked(eff, i)
    ensures EffectorMap(eff, effects, dumb)
  {
    hide EffectorMap, FlipsRun, BytesRun, ArithRun, InterestRun, CouldBeArith, Walk, Tried, ByteWalk, ArithAll, InterestAll;
    ghost var s := a[..];
    log := WalkingBits(a, 1, []);
    ghost var log1 := log;
    log := WalkingBits(a, 2, log);
    ghost var log2 := log;
    log := WalkingBits(a, 4, log);
    ghost var log4 := log;
    log, eff := WalkingBytes(a, effects, dumb, log);
    ghost var log8 := log;
    log := Arith8(a, eff, log);
    ghost var logA := log;
    log := Interest8(a, eff, log);
    FlipsGrow(s, log1, log2, log4, log8, log);
    forall i, v | 0 <= i < a.Length && Marked(eff, i) && (CouldBeArith(a[i], v) || v in INTERESTING_8)
      ensures Tried(a[..], i, v, log)
    {
      ArithRunGrows(s, i, ARITH_MAX + 1, logA, log);
      NothingSkippedIsLost(s, i, v, log);
    }
  }

  lemma FlipsGrow(s: File, log1: seq<File>, log2: seq<File>, log4: seq<File>, log8: seq<File>, log: seq<File>)
    requires FlipsRun(s, 1, log1) && FlipsRun(s, 2, log2) && FlipsRun(s, 4, log4) && BytesRun(s, log8)
    requires log1 <= log2 <= log4 <= log8 <= log
    ensures AllFlipsRun(s, log)
  {
    hide FlipBits, Xor;
  }
}
