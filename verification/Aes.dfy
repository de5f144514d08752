/** The table-driven implementation: 32-bit words, the `Te`/`Td` tables, the two key setups that fill
    `rd_key` in place, and the block routines. Everything is proved against AesSpec.

    The tables are given by the formulas the source states for them; `Te4` and `Td4` by their bytes. */
module Aes {
  import opened AesSpec

  // ---------------------------------------------------------------------------------------------
  // Words

  function B0(w: bv32): bv8 { (w >> 24) as bv8 }
  function B1(w: bv32): bv8 { ((w >> 16) & 0xff) as bv8 }
  function B2(w: bv32): bv8 { ((w >> 8) & 0xff) as bv8 }
  function B3(w: bv32): bv8 { (w & 0xff) as bv8 }

  /** `GETU32`. */
  function Word(a: bv8, b: bv8, c: bv8, d: bv8): bv32 {
    ((a as bv32) << 24) ^ ((b as bv32) << 16) ^ ((c as bv32) << 8) ^ (d as bv32)
  }

  function XorWord(v: bv32, w: bv32): bv32 { v ^ w }

  function Col(w: bv32): Column { Column(B0(w), B1(w), B2(w), B3(w)) }

  lemma ColOfWord(a: bv8, b: bv8, c: bv8, d: bv8)
    ensures Col(Word(a, b, c, d)) == Column(a, b, c, d)
  {
  }

  lemma ColOfXor(v: bv32, w: bv32)
    ensures Col(XorWord(v, w)) == XorColumn(Col(v), Col(w))
  {
  }

  function StateOf(s0: bv32, s1: bv32, s2: bv32, s3: bv32): State {
    State(Col(s0), Col(s1), Col(s2), Col(s3))
  }

  // ---------------------------------------------------------------------------------------------
  // Tables

  function Te0(x: bv8): bv32 { var s := SBox(x); Word(X2(s), s, s, X3(s)) }
  function Te1(x: bv8): bv32 { var s := SBox(x); Word(X3(s), X2(s), s, s) }
  function Te2(x: bv8): bv32 { var s := SBox(x); Word(s, X3(s), X2(s), s) }
  function Te3(x: bv8): bv32 { var s := SBox(x); Word(s, s, X3(s), X2(s)) }
  function Te4(x: bv8): bv32 { var s := SBox(x); Word(s, s, s, s) }

  function Td0(x: bv8): bv32 { var s := InvSBox(x); Word(XE(s), X9(s), XD(s), XB(s)) }
  function Td1(x: bv8): bv32 { var s := InvSBox(x); Word(XB(s), XE(s), X9(s), XD(s)) }
  function Td2(x: bv8): bv32 { var s := InvSBox(x); Word(XD(s), XB(s), XE(s), X9(s)) }
  function Td3(x: bv8): bv32 { var s := InvSBox(x); Word(X9(s), XD(s), XB(s), XE(s)) }
  function Td4(x: bv8): bv32 { var s := InvSBox(x); Word(s, s, s, s) }

  function Rcon(i: nat): bv32
    requires i < 10
  {
    if i == 0 then 0x01000000 else if i == 1 then 0x02000000 else if i == 2 then 0x04000000
    else if i == 3 then 0x08000000 else if i == 4 then 0x10000000 else if i == 5 then 0x20000000
    else if i == 6 then 0x40000000 else if i == 7 then 0x80000000 else if i == 8 then 0x1B000000 else 0x36000000
  }

  /** The round constant of section 5.2 of FIPS 197: a power of x. */
  function RoundConstant(i: nat): bv8 {
    if i == 0 then 1 else X2(RoundConstant(i - 1))
  }

  /** A sum of four table words and a key word. */
  function Sum5(a: bv32, b: bv32, c: bv32, d: bv32, k: bv32): bv32 {
    XorWord(XorWord(XorWord(XorWord(a, b), c), d), k)
  }

  lemma ColOfSum5(a: bv32, b: bv32, c: bv32, d: bv32, k: bv32)
    ensures Col(Sum5(a, b, c, d, k)) == XorColumn(XorColumn(XorColumn(XorColumn(Col(a), Col(b)), Col(c)), Col(d)), Col(k))
  {
    hide Col, XorWord, XorColumn;
    ColOfXor(a, b);
    ColOfXor(XorWord(a, b), c);
    ColOfXor(XorWord(XorWord(a, b), c), d);
    ColOfXor(XorWord(XorWord(XorWord(a, b), c), d), k);
  }

  /** One word of a full encryption round. */
  function EncWord(s0: bv32, s1: bv32, s2: bv32, s3: bv32, k: bv32): bv32 {
    Sum5(Te0(B0(s0)), Te1(B1(s1)), Te2(B2(s2)), Te3(B3(s3)), k)
  }

  function DecWord(s0: bv32, s3: bv32, s2: bv32, s1: bv32, k: bv32): bv32 {
    Sum5(Td0(B0(s0)), Td1(B1(s3)), Td2(B2(s2)), Td3(B3(s1)), k)
  }

  /** One word of the last round: a byte of each of four substitution words. */
  function Masked(w0: bv32, w1: bv32, w2: bv32, w3: bv32, k: bv32): bv32 {
    Sum5(w0 & 0xff000000, w1 & 0x00ff0000, w2 & 0x0000ff00, w3 & 0x000000ff, k)
  }

  lemma MaskedBytes(w0: bv32, w1: bv32, w2: bv32, w3: bv32)
    ensures Col(w0 & 0xff000000) == Column(B0(w0), 0, 0, 0) && Col(w1 & 0x00ff0000) == Column(0, B1(w1), 0, 0)
    ensures Col(w2 & 0x0000ff00) == Column(0, 0, B2(w2), 0) && Col(w3 & 0x000000ff) == Column(0, 0, 0, B3(w3))
  {
  }

  lemma XorZeroes(a: bv8, b: bv8, c: bv8, d: bv8)
    ensures XorColumn(XorColumn(XorColumn(Column(a, 0, 0, 0), Column(0, b, 0, 0)), Column(0, 0, c, 0)), Column(0, 0, 0, d))
            == Column(a, b, c, d)
  {
  }

  lemma ColOfMasked(w0: bv32, w1: bv32, w2: bv32, w3: bv32, k: bv32)
    ensures Col(Masked(w0, w1, w2, w3, k)) == XorColumn(Column(Col(w0).r0, Col(w1).r1, Col(w2).r2, Col(w3).r3), Col(k))
  {
    hide Sum5, XorColumn, B0, B1, B2, B3;
    ColOfSum5(w0 & 0xff000000, w1 & 0x00ff0000, w2 & 0x0000ff00, w3 & 0x000000ff, k);
    MaskedBytes(w0, w1, w2, w3);
    XorZeroes(B0(w0), B1(w1), B2(w2), B3(w3));
  }

  /** A table round is SubBytes, ShiftRows, MixColumns and AddRoundKey on one column. */
  lemma ColOfEncWord(s0: bv32, s1: bv32, s2: bv32, s3: bv32, k: bv32)
    ensures Col(EncWord(s0, s1, s2, s3, k))
            == XorColumn(MixColumn(SubColumn(Column(Col(s0).r0, Col(s1).r1, Col(s2).r2, Col(s3).r3))), Col(k))
  {
    hide Sum5, Word, B0, B1, B2, B3, X2, X3, SBox, Xor, Col;
    var a, b, c, d := SBox(B0(s0)), SBox(B1(s1)), SBox(B2(s2)), SBox(B3(s3));
    ColOfSum5(Te0(B0(s0)), Te1(B1(s1)), Te2(B2(s2)), Te3(B3(s3)), k);
    ColOfWord(X2(a), a, a, X3(a));
    ColOfWord(X3(b), X2(b), b, b);
    ColOfWord(c, X3(c), X2(c), c);
    ColOfWord(d, d, X3(d), X2(d));
    ColBytes(s0);
    ColBytes(s1);
    ColBytes(s2);
    ColBytes(s3);
  }

  lemma ColBytes(w: bv32)
    ensures Col(w) == Column(B0(w), B1(w), B2(w), B3(w))
  {
  }

  lemma ColOfDecWord(s0: bv32, s3: bv32, s2: bv32, s1: bv32, k: bv32)
    ensures Col(DecWord(s0, s3, s2, s1, k))
            == XorColumn(InvMixColumn(InvSubColumn(Column(Col(s0).r0, Col(s3).r1, Col(s2).r2, Col(s1).r3))), Col(k))
  {
    hide Sum5, Word, B0, B1, B2, B3, X9, XB, XD, XE, InvSBox, Xor, Col;
    var a, b, c, d := InvSBox(B0(s0)), InvSBox(B1(s3)), InvSBox(B2(s2)), InvSBox(B3(s1));
    ColOfSum5(Td0(B0(s0)), Td1(B1(s3)), Td2(B2(s2)), Td3(B3(s1)), k);
    ColOfWord(XE(a), X9(a), XD(a), XB(a));
    ColOfWord(XB(b), XE(b), X9(b), XD(b));
    ColOfWord(XD(c), XB(c), XE(c), X9(c));
    ColOfWord(X9(d), XD(d), XB(d), XE(d));
    ColBytes(s0);
    ColBytes(s1);
    ColBytes(s2);
    ColBytes(s3);
  }

  /** The last round of encryption on one column. */
  lemma ColOfLastEnc(t0: bv32, t1: bv32, t2: bv32, t3: bv32, k: bv32)
    ensures Col(Masked(Te4(B0(t0)), Te4(B1(t1)), Te4(B2(t2)), Te4(B3(t3)), k))
            == XorColumn(SubColumn(Column(Col(t0).r0, Col(t1).r1, Col(t2).r2, Col(t3).r3)), Col(k))
  {
    hide Masked, Word, B0, B1, B2, B3, SBox, Xor, Col;
    var a, b, c, d := SBox(B0(t0)), SBox(B1(t1)), SBox(B2(t2)), SBox(B3(t3));
    ColOfMasked(Te4(B0(t0)), Te4(B1(t1)), Te4(B2(t2)), Te4(B3(t3)), k);
    ColOfWord(a, a, a, a);
    ColOfWord(b, b, b, b);
    ColOfWord(c, c, c, c);
    ColOfWord(d, d, d, d);
    ColBytes(t0);
    ColBytes(t1);
    ColBytes(t2);
    ColBytes(t3);
  }

  lemma ColOfLastDec(t0: bv32, t3: bv32, t2: bv32, t1: bv32, k: bv32)
    ensures Col(Masked(Td4(B0(t0)), Td4(B1(t3)), Td4(B2(t2)), Td4(B3(t1)), k))
            == XorColumn(InvSubColumn(Column(Col(t0).r0, Col(t3).r1, Col(t2).r2, Col(t1).r3)), Col(k))
  {
    hide Masked, Word, B0, B1, B2, B3, InvSBox, Xor, Col;
    var a, b, c, d := InvSBox(B0(t0)), InvSBox(B1(t3)), InvSBox(B2(t2)), InvSBox(B3(t1));
    ColOfMasked(Td4(B0(t0)), Td4(B1(t3)), Td4(B2(t2)), Td4(B3(t1)), k);
    ColOfWord(a, a, a, a);
    ColOfWord(b, b, b, b);
    ColOfWord(c, c, c, c);
    ColOfWord(d, d, d, d);
    ColBytes(t0);
    ColBytes(t1);
    ColBytes(t2);
    ColBytes(t3);
  }

  // ---------------------------------------------------------------------------------------------
  // Key setup

  function GetU32(b: seq<bv8>, at: nat): bv32
    requires at + 4 <= |b|
  {
    Word(b[at], b[at + 1], b[at + 2], b[at + 3])
  }

  /** The round keys held by the first `4 * (nr + 1)` words of a schedule. */
  function KeyState(w: seq<bv32>, r: nat): State
    requires 4 * r + 4 <= |w|
  {
    StateOf(w[4 * r], w[4 * r + 1], w[4 * r + 2], w[4 * r + 3])
  }

  function KeyStates(w: seq<bv32>, nr: nat): (k: seq<State>)
    requires 4 * nr + 4 <= |w|
    ensures |k| == nr + 1
  {
    seq(nr + 1, r requires 0 <= r <= nr => KeyState(w, r))
  }

  lemma KeyAt(w: seq<bv32>, nr: nat, r: nat)
    requires 4 * nr + 4 <= |w| && r <= nr
    ensures KeyStates(w, nr)[r] == StateOf(w[4 * r], w[4 * r + 1], w[4 * r + 2], w[4 * r + 3])
  {
  }

  /** The value `temp` that KeyExpansion() (section 5.2 of FIPS 197) adds to word `i - nk`. */
  function Temp(prev: Column, i: nat, nk: nat): Column
    requires nk > 0 && i >= nk
  {
    if i % nk == 0 then
      XorColumn(SubColumn(Column(prev.r1, prev.r2, prev.r3, prev.r0)), Column(RoundConstant(i / nk - 1), 0, 0, 0))
    else if nk > 6 && i % nk == 4 then SubColumn(prev)
    else prev
  }

  /** The first `n` words of `w` are those of the expanded key. */
  ghost predicate Expanded(key: seq<bv8>, nk: nat, w: seq<bv32>, n: nat) {
    && 0 < nk && 4 * nk <= |key| && n <= |w|
    && (forall i :: 0 <= i < nk && i < n ==> w[i] == GetU32(key, 4 * i))
    && (forall i :: nk <= i < n ==> Col(w[i]) == XorColumn(Col(w[i - nk]), Temp(Col(w[i - 1]), i, nk)))
  }

  /** The first words that the key expansion adds to the key of appendix A.1 of FIPS 197. */
  lemma ExpansionExample(key: seq<bv8>, w: seq<bv32>)
    requires Expanded(key, 4, w, 9) && w[..4] == [0x2b7e1516, 0x28aed2a6, 0xabf71588, 0x09cf4f3c]
    ensures w[4..9] == [0xa0fafe17, 0x88542cb1, 0x23a33939, 0x2a6c7605, 0xf2c295f2]
  {
    hide GetU32, Col, Temp, XorColumn;
    ExampleSteps();
    ExampleWord(key, w, 4, 0x2b7e1516, 0x09cf4f3c, 0xa0fafe17);
    ExampleWord(key, w, 5, 0x28aed2a6, 0xa0fafe17, 0x88542cb1);
    ExampleWord(key, w, 6, 0xabf71588, 0x88542cb1, 0x23a33939);
    ExampleWord(key, w, 7, 0x09cf4f3c, 0x23a33939, 0x2a6c7605);
    ExampleWord(key, w, 8, 0xa0fafe17, 0x2a6c7605, 0xf2c295f2);
  }

  lemma ExampleWord(key: seq<bv8>, w: seq<bv32>, i: nat, back: bv32, prev: bv32, x: bv32)
    requires 4 <= i < 9 && Expanded(key, 4, w, 9) && w[i - 4] == back && w[i - 1] == prev
    requires Col(x) == XorColumn(Col(back), Temp(Col(prev), i, 4))
    ensures w[i] == x
  {
    hide Temp, XorColumn, GetU32;
    ColInjective(w[i], x);
  }

  lemma ColInjective(v: bv32, w: bv32)
    requires Col(v) == Col(w)
    ensures v == w
  {
  }

  lemma ExampleSteps()
    ensures Col(0xa0fafe17) == XorColumn(Col(0x2b7e1516), Temp(Col(0x09cf4f3c), 4, 4))
    ensures Col(0x88542cb1) == XorColumn(Col(0x28aed2a6), Temp(Col(0xa0fafe17), 5, 4))
    ensures Col(0x23a33939) == XorColumn(Col(0xabf71588), Temp(Col(0x88542cb1), 6, 4))
    ensures Col(0x2a6c7605) == XorColumn(Col(0x09cf4f3c), Temp(Col(0x23a33939), 7, 4))
    ensures Col(0xf2c295f2) == XorColumn(Col(0xa0fafe17), Temp(Col(0x2a6c7605), 8, 4))
  {
    Powers();
    hide RoundConstant;
  }

  /** `temp` rotated, substituted and added to a round constant, as the source writes it. */
  function RotSubWord(temp: bv32, rcon: bv32): bv32 {
    Masked(Te4(B1(temp)), Te4(B2(temp)), Te4(B3(temp)), Te4(B0(temp)), rcon)
  }

  function SubWord(temp: bv32): bv32 {
    Masked(Te4(B0(temp)), Te4(B1(temp)), Te4(B2(temp)), Te4(B3(temp)), 0)
  }

  lemma ColOfRotSub(temp: bv32, i: nat)
    requires i < 10
    ensures Col(RotSubWord(temp, Rcon(i)))
            == XorColumn(SubColumn(Column(Col(temp).r1, Col(temp).r2, Col(temp).r3, Col(temp).r0)), Column(RoundConstant(i), 0, 0, 0))
  {
    hide Masked, Word, B0, B1, B2, B3, SBox, Xor, Col, Rcon, RoundConstant;
    var a, b, c, d := SBox(B1(temp)), SBox(B2(temp)), SBox(B3(temp)), SBox(B0(temp));
    ColOfMasked(Te4(B1(temp)), Te4(B2(temp)), Te4(B3(temp)), Te4(B0(temp)), Rcon(i));
    ColOfWord(a, a, a, a);
    ColOfWord(b, b, b, b);
    ColOfWord(c, c, c, c);
    ColOfWord(d, d, d, d);
    ColBytes(temp);
    RconIsPower(i);
  }

  lemma RconIsPower(i: nat)
    requires i < 10
    ensures Col(Rcon(i)) == Column(RoundConstant(i), 0, 0, 0)
  {
    Powers();
  }

  lemma Powers()
    ensures RoundConstant(0) == 1 && RoundConstant(1) == 2 && RoundConstant(2) == 4 && RoundConstant(3) == 8
    ensures RoundConstant(4) == 0x10 && RoundConstant(5) == 0x20 && RoundConstant(6) == 0x40 && RoundConstant(7) == 0x80
    ensures RoundConstant(8) == 0x1b && RoundConstant(9) == 0x36
  {
    assert RoundConstant(2) == 4;
    assert RoundConstant(4) == 0x10;
    assert RoundConstant(6) == 0x40;
    assert RoundConstant(8) == 0x1b;
  }

  lemma ColOfSubWord(temp: bv32)
    ensures Col(SubWord(temp)) == SubColumn(Col(temp))
  {
    hide Masked, Word, B0, B1, B2, B3, SBox, Xor, Col;
    ColOfLastEnc(temp, temp, temp, temp, 0);
    ColBytes(temp);
    ZeroWord();
    XorZeroColumn(SubColumn(Col(temp)));
  }

  lemma ZeroWord()
    ensures Col(0) == Column(0, 0, 0, 0)
  {
  }

  lemma XorZeroColumn(c: Column)
    ensures XorColumn(c, Column(0, 0, 0, 0)) == c
  {
  }

  /** Word `c` of group `r`, for sequences read four words at a time. */
  ghost function At<T>(w: seq<T>, r: nat, c: nat): T
    requires 4 * r + c < |w|
  {
    w[4 * r + c]
  }

  method SwapGroups<T>(a: array<T>, i: nat, j: nat)
    requires i + 4 <= j && j + 4 <= a.Length
    modifies a
    ensures forall x :: 0 <= x < a.Length ==>
              a[x] == old(a[..])[if i <= x < i + 4 then x - i + j else if j <= x < j + 4 then x - j + i else x]
  {
    a[i], a[j] := a[j], a[i];
    a[i + 1], a[j + 1] := a[j + 1], a[i + 1];
    a[i + 2], a[j + 2] := a[j + 2], a[i + 2];
    a[i + 3], a[j + 3] := a[j + 3], a[i + 3];
  }

  /** Groups outside `g..nr - g` have changed places with their mirror images. */
  ghost predicate Reversed<T>(v: seq<T>, w: seq<T>, nr: nat, g: nat) {
    && |v| == |w| >= 4 * nr + 4
    && forall r, c :: 0 <= r <= nr && 0 <= c < 4 ==> At(v, r, c) == At(w, if r < g || r > nr - g then nr - r else r, c)
  }

  lemma ReverseStep<T>(u: seq<T>, v: seq<T>, w: seq<T>, nr: nat, g: nat)
    requires Reversed(u, w, nr, g) && |u| == |v| && 2 * g < nr
    requires forall r, c :: 0 <= r <= nr && 0 <= c < 4 ==>
               At(v, r, c) == At(u, if r == g then nr - g else if r == nr - g then g else r, c)
    ensures Reversed(v, w, nr, g + 1)
  {
    hide At;
    forall r, c | 0 <= r <= nr && 0 <= c < 4
      ensures At(v, r, c) == At(w, if r < g + 1 || r > nr - g - 1 then nr - r else r, c)
    {
      var q := if r == g then nr - g else if r == nr - g then g else r;
      assert At(v, r, c) == At(u, q, c);
      assert At(u, q, c) == At(w, if q < g || q > nr - g then nr - q else q, c);
    }
  }

  /** Invert the order of the round keys. */
  method ReverseGroups<T>(a: array<T>, nr: nat)
    requires 4 * nr + 4 <= a.Length
    modifies a
    ensures forall r, c :: 0 <= r <= nr && 0 <= c < 4 ==> At(a[..], r, c) == At(old(a[..]), nr - r, c)
  {
    ghost var w := a[..];
    ghost var g := 0;
    var i, j := 0, 4 * nr;
    while i < j
      invariant 0 <= g && i == 4 * g && j == 4 * (nr - g) && j + 4 >= i
      invariant Reversed(a[..], w, nr, g)
      decreases j - i
    {
      hide At, Reversed;
      ghost var v := a[..];
      SwapGroups(a, i, j);
      SwappedGroups(v, a[..], nr, g);
      ReverseStep(v, a[..], w, nr, g);
      i, j, g := i + 4, j - 4, g + 1;
    }
    AllReversed(a[..], w, nr, g);
  }

  lemma AllReversed<T>(v: seq<T>, w: seq<T>, nr: nat, g: nat)
    requires Reversed(v, w, nr, g) && nr <= 2 * g
    ensures forall r, c :: 0 <= r <= nr && 0 <= c < 4 ==> At(v, r, c) == At(w, nr - r, c)
  {
    hide At;
    forall r, c | 0 <= r <= nr && 0 <= c < 4
      ensures At(v, r, c) == At(w, nr - r, c)
    {
      assert At(v, r, c) == At(w, if r < g || r > nr - g then nr - r else r, c);
    }
  }

  lemma SwappedGroups<T>(v: seq<T>, w: seq<T>, nr: nat, g: nat)
    requires |v| == |w| >= 4 * nr + 4 && 2 * g < nr
    requires forall x :: 0 <= x < |v| ==>
               w[x] == v[if 4 * g <= x < 4 * g + 4 then x - 4 * g + 4 * (nr - g)
                         else if 4 * (nr - g) <= x < 4 * (nr - g) + 4 then x - 4 * (nr - g) + 4 * g else x]
    ensures forall r, c :: 0 <= r <= nr && 0 <= c < 4 ==>
              At(w, r, c) == At(v, if r == g then nr - g else if r == nr - g then g else r, c)
  {
  }

  /** Transform all round keys but the first and the last. */
  method MapInnerGroups<T>(a: array<T>, nr: nat, f: T -> T)
    requires 1 <= nr && 4 * nr + 4 <= a.Length
    modifies a
    ensures forall x :: 0 <= x < 4 * nr + 4 ==> a[x] == if 4 <= x < 4 * nr then f(old(a[..])[x]) else old(a[..])[x]
  {
    ghost var w := a[..];
    var i, rk := 1, 0;
    while i < nr
      invariant 1 <= i <= nr && rk == 4 * (i - 1)
      invariant forall x :: 0 <= x < 4 * nr + 4 ==> a[x] == if 4 <= x < rk + 4 then f(w[x]) else w[x]
    {
      rk := rk + 4;
      a[rk] := f(a[rk]);
      a[rk + 1] := f(a[rk + 1]);
      a[rk + 2] := f(a[rk + 2]);
      a[rk + 3] := f(a[rk + 3]);
      i := i + 1;
    }
  }

  class AesKey {
    const rdKey: array<bv32>
    var rounds: nat

    constructor ()
      ensures fresh(rdKey) && rdKey.Length == 60 && rounds == 10
    {
      rdKey := new bv32[60];
      rounds := 10;
    }

    ghost predicate Valid()
      reads this
    {
      rdKey.Length == 60 && (rounds == 10 || rounds == 12 || rounds == 14)
    }

    ghost function Schedule(): (k: seq<State>)
      requires Valid()
      reads this, rdKey
      ensures |k| == rounds + 1
    {
      KeyStates(rdKey[..], rounds)
    }

    /** Store word `n` of the schedule. */
    method Put(n: nat, v: bv32, ghost key: seq<bv8>, ghost nk: nat)
      requires n < rdKey.Length && Expanded(key, nk, rdKey[..], n)
      requires n < nk ==> v == GetU32(key, 4 * n)
      requires n >= nk ==> Col(v) == XorColumn(Col(rdKey[n - nk]), Temp(Col(rdKey[n - 1]), n, nk))
      modifies rdKey
      ensures Expanded(key, nk, rdKey[..], n + 1)
      ensures rdKey[..] == old(rdKey[..])[n := v]
    {
      hide Col, XorColumn, Temp, GetU32;
      rdKey[n] := v;
    }

    method PutXor(n: nat, ghost key: seq<bv8>, nk: nat)
      requires 0 < nk <= n < rdKey.Length && Expanded(key, nk, rdKey[..], n)
      requires n % nk != 0 && (nk > 6 ==> n % nk != 4)
      modifies rdKey
      ensures Expanded(key, nk, rdKey[..], n + 1)
    {
      hide Col, XorColumn;
      ColOfXor(rdKey[n - nk], rdKey[n - 1]);
      Put(n, XorWord(rdKey[n - nk], rdKey[n - 1]), key, nk);
    }

    method PutCore(n: nat, ghost key: seq<bv8>, nk: nat, i: nat)
      requires 0 < nk <= n < rdKey.Length && Expanded(key, nk, rdKey[..], n)
      requires n % nk == 0 && n / nk == i + 1 && i < 10
      modifies rdKey
      ensures Expanded(key, nk, rdKey[..], n + 1)
    {
      hide Col, XorColumn, RotSubWord, Rcon;
      var temp := RotSubWord(rdKey[n - 1], Rcon(i));
      ColOfRotSub(rdKey[n - 1], i);
      ColOfXor(rdKey[n - nk], temp);
      Put(n, XorWord(rdKey[n - nk], temp), key, nk);
    }

    method PutSub(n: nat, ghost key: seq<bv8>, nk: nat)
      requires 6 < nk <= n < rdKey.Length && Expanded(key, nk, rdKey[..], n)
      requires n % nk == 4
      modifies rdKey
      ensures Expanded(key, nk, rdKey[..], n + 1)
    {
      hide Col, XorColumn, SubWord;
      var temp := SubWord(rdKey[n - 1]);
      ColOfSubWord(rdKey[n - 1]);
      ColOfXor(rdKey[n - nk], temp);
      Put(n, XorWord(rdKey[n - nk], temp), key, nk);
    }

    method LoadKey(key: seq<bv8>, nk: nat)
      requires 0 < nk <= rdKey.Length && 4 * nk <= |key|
      modifies rdKey
      ensures Expanded(key, nk, rdKey[..], nk)
    {
      var n := 0;
      while n < nk
        invariant 0 <= n <= nk && Expanded(key, nk, rdKey[..], n)
      {
        Put(n, GetU32(key, 4 * n), key, nk);
        n := n + 1;
      }
    }

    method Expand128(key: seq<bv8>)
      requires rdKey.Length == 60 && Expanded(key, 4, rdKey[..], 4)
      modifies rdKey
      ensures Expanded(key, 4, rdKey[..], 44)
    {
      hide Expanded;
      var i, rk := 0, 0;
      while true
        invariant 0 <= i < 10 && rk == 4 * i && Expanded(key, 4, rdKey[..], rk + 4)
        decreases 10 - i
      {
        PutCore(rk + 4, key, 4, i);
        PutXor(rk + 5, key, 4);
        PutXor(rk + 6, key, 4);
        PutXor(rk + 7, key, 4);
        i := i + 1;
        if i == 10 {
          return;
        }
        rk := rk + 4;
      }
    }

    method Expand192(key: seq<bv8>)
      requires rdKey.Length == 60 && Expanded(key, 6, rdKey[..], 6)
      modifies rdKey
      ensures Expanded(key, 6, rdKey[..], 52)
    {
      hide Expanded;
      var i, rk := 0, 0;
      while true
        invariant 0 <= i < 8 && rk == 6 * i && Expanded(key, 6, rdKey[..], rk + 6)
        decreases 8 - i
      {
        PutCore(rk + 6, key, 6, i);
        PutXor(rk + 7, key, 6);
        PutXor(rk + 8, key, 6);
        PutXor(rk + 9, key, 6);
        i := i + 1;
        if i == 8 {
          return;
        }
        PutXor(rk + 10, key, 6);
        PutXor(rk + 11, key, 6);
        rk := rk + 6;
      }
    }

    method Expand256(key: seq<bv8>)
      requires rdKey.Length == 60 && Expanded(key, 8, rdKey[..], 8)
      modifies rdKey
      ensures Expanded(key, 8, rdKey[..], 60)
    {
      hide Expanded;
      var i, rk := 0, 0;
      while true
        invariant 0 <= i < 7 && rk == 8 * i && Expanded(key, 8, rdKey[..], rk + 8)
        decreases 7 - i
      {
        PutCore(rk + 8, key, 8, i);
        PutXor(rk + 9, key, 8);
        PutXor(rk + 10, key, 8);
        PutXor(rk + 11, key, 8);
        i := i + 1;
        if i == 7 {
          return;
        }
        PutSub(rk + 12, key, 8);
        PutXor(rk + 13, key, 8);
        PutXor(rk + 14, key, 8);
        PutXor(rk + 15, key, 8);
        rk := rk + 8;
      }
    }

    /** `AES_set_encrypt_key`: exactly the key expansion of FIPS 197. */
    method SetEncryptKey(userKey: seq<bv8>, bits: int) returns (status: int)
      requires rdKey.Length == 60
      requires bits == 128 || bits == 192 || bits == 256 ==> 8 * |userKey| >= bits
      modifies this`rounds, rdKey
      ensures status == if bits == 128 || bits == 192 || bits == 256 then 0 else -2
      ensures status < 0 ==> rounds == old(rounds) && rdKey[..] == old(rdKey[..])
      ensures status == 0 ==> Valid() && rounds == bits / 32 + 6
      ensures status == 0 ==> Expanded(userKey, bits / 32, rdKey[..], 4 * (rounds + 1))
    {
      hide Expanded;
      if bits != 128 && bits != 192 && bits != 256 {
        return -2;
      }
      rounds := if bits == 128 then 10 else if bits == 192 then 12 else 14;
      LoadKey(userKey, bits / 32);
      if bits == 128 {
        Expand128(userKey);
      } else if bits == 192 {
        Expand192(userKey);
      } else {
        Expand256(userKey);
      }
      return 0;
    }

    /** `AES_set_decrypt_key`: the schedule of the equivalent inverse cipher for the same user key. */
    method SetDecryptKey(userKey: seq<bv8>, bits: int) returns (status: int, ghost ek: seq<bv32>)
      requires rdKey.Length == 60
      requires bits == 128 || bits == 192 || bits == 256 ==> 8 * |userKey| >= bits
      modifies this`rounds, rdKey
      ensures status == if bits == 128 || bits == 192 || bits == 256 then 0 else -2
      ensures status < 0 ==> rounds == old(rounds) && rdKey[..] == old(rdKey[..])
      ensures status == 0 ==> Valid() && rounds == bits / 32 + 6 && |ek| == 60
      ensures status == 0 ==> Expanded(userKey, bits / 32, ek, 4 * (rounds + 1))
      ensures status == 0 ==> IsInverseSchedule(KeyStates(ek, rounds), Schedule())
    {
      hide Expanded, InvMixWord, IsInverseSchedule, KeyStates, At;
      status := SetEncryptKey(userKey, bits);
      ek := rdKey[..];
      if status < 0 {
        return;
      }
      ReverseGroups(rdKey, rounds);
      ghost var rev := rdKey[..];
      MapInnerGroups(rdKey, rounds, InvMixWord);
      InverseScheduleOf(ek, rev, rdKey[..], rounds);
    }
  }

  /** InvMixColumns on one key word, taking a detour through both substitution tables. */
  function InvMixWord(w: bv32): bv32 {
    XorWord(XorWord(XorWord(Td0(B3(Te4(B0(w)))), Td1(B3(Te4(B1(w))))), Td2(B3(Te4(B2(w))))), Td3(B3(Te4(B3(w)))))
  }

  lemma LowByte(a: bv8, b: bv8, c: bv8, d: bv8)
    ensures B3(Word(a, b, c, d)) == d
  {
  }

  lemma ColOfInvMixWord(w: bv32)
    ensures Col(InvMixWord(w)) == InvMixColumn(Col(w))
  {
    hide Word, B0, B1, B2, B3, X9, XB, XD, XE, SBox, InvSBox, Xor, Col, XorWord;
    var a, b, c, d := B0(w), B1(w), B2(w), B3(w);
    LowByte(SBox(a), SBox(a), SBox(a), SBox(a));
    LowByte(SBox(b), SBox(b), SBox(b), SBox(b));
    LowByte(SBox(c), SBox(c), SBox(c), SBox(c));
    LowByte(SBox(d), SBox(d), SBox(d), SBox(d));
    InvSBoxUndoes(a);
    InvSBoxUndoes(b);
    InvSBoxUndoes(c);
    InvSBoxUndoes(d);
    var wa, wb := Word(XE(a), X9(a), XD(a), XB(a)), Word(XB(b), XE(b), X9(b), XD(b));
    var wc, wd := Word(XD(c), XB(c), XE(c), X9(c)), Word(X9(d), XD(d), XB(d), XE(d));
    ColOfXor(wa, wb);
    ColOfXor(XorWord(wa, wb), wc);
    ColOfXor(XorWord(XorWord(wa, wb), wc), wd);
    ColOfWord(XE(a), X9(a), XD(a), XB(a));
    ColOfWord(XB(b), XE(b), X9(b), XD(b));
    ColOfWord(XD(c), XB(c), XE(c), X9(c));
    ColOfWord(X9(d), XD(d), XB(d), XE(d));
    ColBytes(w);
  }

  lemma InverseScheduleOf(ek: seq<bv32>, rev: seq<bv32>, dk: seq<bv32>, nr: nat)
    requires |ek| == |rev| == |dk| == 60 && 1 <= nr <= 14
    requires forall r, c :: 0 <= r <= nr && 0 <= c < 4 ==> At(rev, r, c) == At(ek, nr - r, c)
    requires forall x :: 0 <= x < 4 * nr + 4 ==> dk[x] == if 4 <= x < 4 * nr then InvMixWord(rev[x]) else rev[x]
    ensures IsInverseSchedule(KeyStates(ek, nr), KeyStates(dk, nr))
  {
    forall r | 0 <= r <= nr
      ensures KeyState(dk, r)
              == if 0 < r < nr then InvMixColumns(KeyState(ek, nr - r)) else KeyState(ek, nr - r)
    {
      InverseKeyOf(ek, rev, dk, nr, r);
    }
  }

  lemma InverseKeyOf(ek: seq<bv32>, rev: seq<bv32>, dk: seq<bv32>, nr: nat, r: nat)
    requires |ek| == |rev| == |dk| == 60 && 1 <= nr <= 14 && r <= nr
    requires forall q, c :: 0 <= q <= nr && 0 <= c < 4 ==> At(rev, q, c) == At(ek, nr - q, c)
    requires forall x :: 0 <= x < 4 * nr + 4 ==> dk[x] == if 4 <= x < 4 * nr then InvMixWord(rev[x]) else rev[x]
    ensures KeyState(dk, r)
            == if 0 < r < nr then InvMixColumns(KeyState(ek, nr - r)) else KeyState(ek, nr - r)
  {
    hide InvMixWord, InvMixColumn, Col;
    var at := 4 * (nr - r);
    assert At(rev, r, 0) == ek[at] && At(rev, r, 1) == ek[at + 1];
    assert At(rev, r, 2) == ek[at + 2] && At(rev, r, 3) == ek[at + 3];
    ColOfInvMixWord(ek[at]);
    ColOfInvMixWord(ek[at + 1]);
    ColOfInvMixWord(ek[at + 2]);
    ColOfInvMixWord(ek[at + 3]);
  }

  /** A user key has only one expansion. */
  lemma {:induction false} ExpansionIsUnique(key: seq<bv8>, nk: nat, v: seq<bv32>, w: seq<bv32>, n: nat)
    requires Expanded(key, nk, v, n) && Expanded(key, nk, w, n)
    ensures forall i :: 0 <= i < n ==> Col(v[i]) == Col(w[i])
  {
    hide Col, Temp, XorColumn, GetU32;
    if n > 0 {
      ExpansionIsUnique(key, nk, v, w, n - 1);
      if n - 1 >= nk {
        assert Col(v[n - 1]) == XorColumn(Col(v[n - 1 - nk]), Temp(Col(v[n - 2]), n - 1, nk));
        assert Col(w[n - 1]) == XorColumn(Col(w[n - 1 - nk]), Temp(Col(w[n - 2]), n - 1, nk));
      }
    }
  }

  lemma SameKeyStates(key: seq<bv8>, nk: nat, v: seq<bv32>, w: seq<bv32>, nr: nat)
    requires Expanded(key, nk, v, 4 * (nr + 1)) && Expanded(key, nk, w, 4 * (nr + 1))
    ensures KeyStates(v, nr) == KeyStates(w, nr)
  {
    hide Col, Temp, XorColumn, GetU32;
    ExpansionIsUnique(key, nk, v, w, 4 * (nr + 1));
    forall r | 0 <= r <= nr
      ensures KeyState(v, r) == KeyState(w, r)
    {
    }
  }

  // ---------------------------------------------------------------------------------------------
  // Blocks

  type Block = b: seq<bv8> | |b| == 16 witness seq(16, _ => 0)

  function BlockState(b: Block): State {
    State(Column(b[0], b[1], b[2], b[3]), Column(b[4], b[5], b[6], b[7]),
          Column(b[8], b[9], b[10], b[11]), Column(b[12], b[13], b[14], b[15]))
  }

  function BlockOf(s: State): Block {
    [s.c0.r0, s.c0.r1, s.c0.r2, s.c0.r3, s.c1.r0, s.c1.r1, s.c1.r2, s.c1.r3,
     s.c2.r0, s.c2.r1, s.c2.r2, s.c2.r3, s.c3.r0, s.c3.r1, s.c3.r2, s.c3.r3]
  }

  lemma BlockRoundTrip(b: Block)
    ensures BlockOf(BlockState(b)) == b
  {
  }

  function EncryptBlock(b: Block, k: seq<State>): Block
    requires |k| >= 2
  {
    BlockOf(Cipher(BlockState(b), k))
  }

  function DecryptBlock(b: Block, dk: seq<State>): Block
    requires |dk| >= 2
  {
    BlockOf(EqInvCipher(BlockState(b), dk))
  }

  lemma DecryptBlockUndoes(b: Block, k: seq<State>, dk: seq<State>)
    requires IsInverseSchedule(k, dk)
    ensures DecryptBlock(EncryptBlock(b, k), dk) == b
  {
    hide Cipher, EqInvCipher, InvMixColumns;
    var s := Cipher(BlockState(b), k);
    assert BlockState(BlockOf(s)) == s;
    DecryptUndoesEncrypt(BlockState(b), k, dk);
    BlockRoundTrip(b);
  }

  /** Load a block and add the first round key. */
  lemma FirstAdd(b: Block, k0: bv32, k1: bv32, k2: bv32, k3: bv32)
    ensures StateOf(XorWord(GetU32(b, 0), k0), XorWord(GetU32(b, 4), k1), XorWord(GetU32(b, 8), k2), XorWord(GetU32(b, 12), k3))
            == AddRoundKey(BlockState(b), StateOf(k0, k1, k2, k3))
  {
    hide Col, XorWord, Word, XorColumn;
    ColOfXor(GetU32(b, 0), k0);
    ColOfXor(GetU32(b, 4), k1);
    ColOfXor(GetU32(b, 8), k2);
    ColOfXor(GetU32(b, 12), k3);
    ColOfWord(b[0], b[1], b[2], b[3]);
    ColOfWord(b[4], b[5], b[6], b[7]);
    ColOfWord(b[8], b[9], b[10], b[11]);
    ColOfWord(b[12], b[13], b[14], b[15]);
  }

  method EncRound(s0: bv32, s1: bv32, s2: bv32, s3: bv32, key: AesKey, rk: nat, ghost n: nat)
      returns (t0: bv32, t1: bv32, t2: bv32, t3: bv32)
    requires key.Valid() && n <= key.rounds && rk == 4 * n
    ensures StateOf(t0, t1, t2, t3)
            == AddRoundKey(MixColumns(ShiftRows(SubBytes(StateOf(s0, s1, s2, s3)))),
                           key.Schedule()[n])
  {
    hide EncWord, Col, XorColumn, MixColumn, SBox, KeyStates;
    KeyAt(key.rdKey[..], key.rounds, n);
    t0 := EncWord(s0, s1, s2, s3, key.rdKey[rk]);
    t1 := EncWord(s1, s2, s3, s0, key.rdKey[rk + 1]);
    t2 := EncWord(s2, s3, s0, s1, key.rdKey[rk + 2]);
    t3 := EncWord(s3, s0, s1, s2, key.rdKey[rk + 3]);
    ColOfEncWord(s0, s1, s2, s3, key.rdKey[rk]);
    ColOfEncWord(s1, s2, s3, s0, key.rdKey[rk + 1]);
    ColOfEncWord(s2, s3, s0, s1, key.rdKey[rk + 2]);
    ColOfEncWord(s3, s0, s1, s2, key.rdKey[rk + 3]);
  }

  method DecRound(s0: bv32, s1: bv32, s2: bv32, s3: bv32, key: AesKey, rk: nat, ghost n: nat)
      returns (t0: bv32, t1: bv32, t2: bv32, t3: bv32)
    requires key.Valid() && n <= key.rounds && rk == 4 * n
    ensures StateOf(t0, t1, t2, t3)
            == AddRoundKey(InvMixColumns(InvShiftRows(InvSubBytes(StateOf(s0, s1, s2, s3)))),
                           key.Schedule()[n])
  {
    hide DecWord, Col, XorColumn, InvMixColumn, InvSBox, KeyStates;
    KeyAt(key.rdKey[..], key.rounds, n);
    t0 := DecWord(s0, s3, s2, s1, key.rdKey[rk]);
    t1 := DecWord(s1, s0, s3, s2, key.rdKey[rk + 1]);
    t2 := DecWord(s2, s1, s0, s3, key.rdKey[rk + 2]);
    t3 := DecWord(s3, s2, s1, s0, key.rdKey[rk + 3]);
    ColOfDecWord(s0, s3, s2, s1, key.rdKey[rk]);
    ColOfDecWord(s1, s0, s3, s2, key.rdKey[rk + 1]);
    ColOfDecWord(s2, s1, s0, s3, key.rdKey[rk + 2]);
    ColOfDecWord(s3, s2, s1, s0, key.rdKey[rk + 3]);
  }

  method LastEncRound(t0: bv32, t1: bv32, t2: bv32, t3: bv32, key: AesKey, rk: nat, ghost n: nat) returns (out: Block)
    requires key.Valid() && n <= key.rounds && rk == 4 * n
    ensures out == BlockOf(AddRoundKey(ShiftRows(SubBytes(StateOf(t0, t1, t2, t3))),
                                       key.Schedule()[n]))
  {
    hide Masked, Te4, Col, XorColumn, SBox, KeyStates;
    KeyAt(key.rdKey[..], key.rounds, n);
    var s0 := Masked(Te4(B0(t0)), Te4(B1(t1)), Te4(B2(t2)), Te4(B3(t3)), key.rdKey[rk]);
    var s1 := Masked(Te4(B0(t1)), Te4(B1(t2)), Te4(B2(t3)), Te4(B3(t0)), key.rdKey[rk + 1]);
    var s2 := Masked(Te4(B0(t2)), Te4(B1(t3)), Te4(B2(t0)), Te4(B3(t1)), key.rdKey[rk + 2]);
    var s3 := Masked(Te4(B0(t3)), Te4(B1(t0)), Te4(B2(t1)), Te4(B3(t2)), key.rdKey[rk + 3]);
    ColOfLastEnc(t0, t1, t2, t3, key.rdKey[rk]);
    ColOfLastEnc(t1, t2, t3, t0, key.rdKey[rk + 1]);
    ColOfLastEnc(t2, t3, t0, t1, key.rdKey[rk + 2]);
    ColOfLastEnc(t3, t0, t1, t2, key.rdKey[rk + 3]);
    out := PutBlock(s0, s1, s2, s3);
  }

  method LastDecRound(t0: bv32, t1: bv32, t2: bv32, t3: bv32, key: AesKey, rk: nat, ghost n: nat) returns (out: Block)
    requires key.Valid() && n <= key.rounds && rk == 4 * n
    ensures out == BlockOf(AddRoundKey(InvShiftRows(InvSubBytes(StateOf(t0, t1, t2, t3))),
                                       key.Schedule()[n]))
  {
    hide Masked, Td4, Col, XorColumn, InvSBox, KeyStates;
    KeyAt(key.rdKey[..], key.rounds, n);
    var s0 := Masked(Td4(B0(t0)), Td4(B1(t3)), Td4(B2(t2)), Td4(B3(t1)), key.rdKey[rk]);
    var s1 := Masked(Td4(B0(t1)), Td4(B1(t0)), Td4(B2(t3)), Td4(B3(t2)), key.rdKey[rk + 1]);
    var s2 := Masked(Td4(B0(t2)), Td4(B1(t1)), Td4(B2(t0)), Td4(B3(t3)), key.rdKey[rk + 2]);
    var s3 := Masked(Td4(B0(t3)), Td4(B1(t2)), Td4(B2(t1)), Td4(B3(t0)), key.rdKey[rk + 3]);
    ColOfLastDec(t0, t3, t2, t1, key.rdKey[rk]);
    ColOfLastDec(t1, t0, t3, t2, key.rdKey[rk + 1]);
    ColOfLastDec(t2, t1, t0, t3, key.rdKey[rk + 2]);
    ColOfLastDec(t3, t2, t1, t0, key.rdKey[rk + 3]);
    out := PutBlock(s0, s1, s2, s3);
  }

  /** `PUTU32` of four words. */
  function PutBlock(s0: bv32, s1: bv32, s2: bv32, s3: bv32): (b: Block)
    ensures b == BlockOf(StateOf(s0, s1, s2, s3))
  {
    [B0(s0), B1(s0), B2(s0), B3(s0), B0(s1), B1(s1), B2(s1), B3(s1),
     B0(s2), B1(s2), B2(s2), B3(s2), B0(s3), B1(s3), B2(s3), B3(s3)]
  }

  lemma RoundsStart(s: State, k: seq<State>)
    requires k != []
    ensures Rounds(s, k, 0) == AddRoundKey(s, k[0])
  {
  }

  lemma RoundsNext(s: State, k: seq<State>, r: nat)
    requires r + 1 < |k|
    ensures Rounds(s, k, r + 1) == AddRoundKey(MixColumns(ShiftRows(SubBytes(Rounds(s, k, r)))), k[r + 1])
  {
  }

  lemma EqInvRoundsStart(s: State, k: seq<State>)
    requires k != []
    ensures EqInvRounds(s, k, 0) == AddRoundKey(s, k[0])
  {
  }

  lemma EqInvRoundsNext(s: State, k: seq<State>, r: nat)
    requires r + 1 < |k|
    ensures EqInvRounds(s, k, r + 1) == AddRoundKey(InvMixColumns(InvShiftRows(InvSubBytes(EqInvRounds(s, k, r)))), k[r + 1])
  {
  }

  /** `AES_encrypt`. All of the input is read before any output is written, so the two may overlap. */
  method Encrypt(b: Block, key: AesKey) returns (out: Block)
    requires key.Valid()
    ensures out == EncryptBlock(b, key.Schedule())
  {
    hide AddRoundKey, MixColumns, ShiftRows, SubBytes, BlockOf, BlockState, StateOf, GetU32, XorWord, KeyStates, Rounds;
    var rd := key.rdKey;
    ghost var k := key.Schedule();
    ghost var s := BlockState(b);
    KeyAt(rd[..], key.rounds, 0);
    FirstAdd(b, rd[0], rd[1], rd[2], rd[3]);
    RoundsStart(s, k);
    var s0, s1 := XorWord(GetU32(b, 0), rd[0]), XorWord(GetU32(b, 4), rd[1]);
    var s2, s3 := XorWord(GetU32(b, 8), rd[2]), XorWord(GetU32(b, 12), rd[3]);
    var t0, t1, t2, t3;
    var r, rk := key.rounds / 2, 0;
    ghost var n := 0;
    while true
      invariant 0 < r && n + 2 * r == key.rounds && rk == 4 * n
      invariant StateOf(s0, s1, s2, s3) == Rounds(s, k, n)
      decreases r
    {
      RoundsNext(s, k, n);
      t0, t1, t2, t3 := EncRound(s0, s1, s2, s3, key, rk + 4, n + 1);
      rk := rk + 8;
      r := r - 1;
      if r == 0 {
        break;
      }
      RoundsNext(s, k, n + 1);
      s0, s1, s2, s3 := EncRound(t0, t1, t2, t3, key, rk, n + 2);
      n := n + 2;
    }
    out := LastEncRound(t0, t1, t2, t3, key, rk, key.rounds);
  }

  /** `AES_decrypt`. */
  method Decrypt(b: Block, key: AesKey) returns (out: Block)
    requires key.Valid()
    ensures out == DecryptBlock(b, key.Schedule())
  {
    hide AddRoundKey, InvMixColumns, InvShiftRows, InvSubBytes, BlockOf, BlockState, StateOf, GetU32, XorWord, KeyStates, EqInvRounds;
    var rd := key.rdKey;
    ghost var k := key.Schedule();
    ghost var s := BlockState(b);
    KeyAt(rd[..], key.rounds, 0);
    FirstAdd(b, rd[0], rd[1], rd[2], rd[3]);
    EqInvRoundsStart(s, k);
    var s0, s1 := XorWord(GetU32(b, 0), rd[0]), XorWord(GetU32(b, 4), rd[1]);
    var s2, s3 := XorWord(GetU32(b, 8), rd[2]), XorWord(GetU32(b, 12), rd[3]);
    var t0, t1, t2, t3;
    var r, rk := key.rounds / 2, 0;
    ghost var n := 0;
    while true
      invariant 0 < r && n + 2 * r == key.rounds && rk == 4 * n
      invariant StateOf(s0, s1, s2, s3) == EqInvRounds(s, k, n)
      decreases r
    {
      EqInvRoundsNext(s, k, n);
      t0, t1, t2, t3 := DecRound(s0, s1, s2, s3, key, rk + 4, n + 1);
      rk := rk + 8;
      r := r - 1;
      if r == 0 {
        break;
      }
      EqInvRoundsNext(s, k, n + 1);
      s0, s1, s2, s3 := DecRound(t0, t1, t2, t3, key, rk, n + 2);
      n := n + 2;
    }
    out := LastDecRound(t0, t1, t2, t3, key, rk, key.rounds);
  }

  /** Set up both keys from one user key, encrypt a block, and decrypt the result. */
  method RoundTrip(userKey: seq<bv8>, bits: int, b: Block) returns (c: Block, p: Block)
    requires bits == 128 || bits == 192 || bits == 256
    requires 8 * |userKey| >= bits
    ensures p == b
  {
    hide Expanded, IsInverseSchedule, EncryptBlock, DecryptBlock, KeyStates;
    var enc := new AesKey();
    var dec := new AesKey();
    var st := enc.SetEncryptKey(userKey, bits);
    ghost var ek;
    st, ek := dec.SetDecryptKey(userKey, bits);
    c := Encrypt(b, enc);
    p := Decrypt(c, dec);
    SameKeyStates(userKey, bits / 32, ek, enc.rdKey[..], enc.rounds);
    DecryptBlockUndoes(b, enc.Schedule(), dec.Schedule());
  }
}
