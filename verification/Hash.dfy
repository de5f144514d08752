/** The trace hash in its 32-bit and 64-bit variants. Every mixing step is undone by an explicit inverse, so
    that any one input word can be recovered from the hash and the other words. */
module Hash {

  // ---------------------------------------------------------------------------------------------
  // Any hash that absorbs one word after the other

  /** The state after absorbing the words, first to last. */
  function Absorb<H, K>(step: (H, K) -> H, h: H, data: seq<K>): H {
    if data == [] then h else Absorb(step, step(h, data[0]), data[1..])
  }

  /** `backH` and `backK` recover a step's two arguments, each from the result and the other. */
  ghost predicate Invertible<H(!new), K(!new)>(step: (H, K) -> H, backH: (H, K) -> H, backK: (H, H) -> K) {
    forall h, k :: backH(step(h, k), k) == h && backK(step(h, k), h) == k
  }

  /** The state before the words were absorbed. */
  function Rewind<H, K>(backH: (H, K) -> H, h: H, data: seq<K>): H {
    if data == [] then h else backH(Rewind(backH, h, data[1..]), data[0])
  }

  lemma {:induction false} RewindUndoes<H(!new), K(!new)>(step: (H, K) -> H, backH: (H, K) -> H, backK: (H, H) -> K, h: H, data: seq<K>)
    requires Invertible(step, backH, backK)
    ensures Rewind(backH, Absorb(step, h, data), data) == h
  {
    if data != [] { RewindUndoes(step, backH, backK, step(h, data[0]), data[1..]); }
  }

  lemma {:induction false} AbsorbAppend<H, K>(step: (H, K) -> H, h: H, a: seq<K>, b: seq<K>)
    ensures Absorb(step, h, a + b) == Absorb(step, Absorb(step, h, a), b)
  {
    if a == [] {
      assert a + b == b;
    } else {
      assert (a + b)[0] == a[0] && (a + b)[1..] == a[1..] + b;
      AbsorbAppend(step, step(h, a[0]), a[1..], b);
    }
  }

  /** Word `i` is what the final state and the other words say it is. */
  lemma WordFromState<H(!new), K(!new)>(step: (H, K) -> H, backH: (H, K) -> H, backK: (H, H) -> K, h: H, data: seq<K>, i: nat)
    requires Invertible(step, backH, backK) && i < |data|
    ensures data[i] == backK(Rewind(backH, Absorb(step, h, data), data[i + 1..]), Absorb(step, h, data[..i]))
  {
    var before, rest := Absorb(step, h, data[..i]), data[i..];
    assert data == data[..i] + rest && rest[0] == data[i] && rest[1..] == data[i + 1..];
    AbsorbAppend(step, h, data[..i], rest);
    RewindUndoes(step, backH, backK, step(before, data[i]), data[i + 1..]);
  }

  // ---------------------------------------------------------------------------------------------
  // 32 bits

  function MulA32(x: bv32): bv32 { x * 0xcc9e2d51 }

  function DivA32(x: bv32): bv32 { x * 0xdee13bb1 }

  lemma DivA32Undoes(x: bv32)
    ensures DivA32(MulA32(x)) == x
  {
    assert DivA32(x * 0xcc9e2d51) == x;
    hide DivA32;
  }

  function RolA32(x: bv32): bv32 { (x << 15) | (x >> 17) }

  function RorA32(x: bv32): bv32 { (x >> 15) | (x << 17) }

  lemma RorA32Undoes(x: bv32)
    ensures RorA32(RolA32(x)) == x
  {
    assert RorA32((x << 15) | (x >> 17)) == x;
    hide RorA32;
  }

  function MulB32(x: bv32): bv32 { x * 0x1b873593 }

  function DivB32(x: bv32): bv32 { x * 0x56ed309b }

  lemma DivB32Undoes(x: bv32)
    ensures DivB32(MulB32(x)) == x
  {
    assert DivB32(x * 0x1b873593) == x;
    hide DivB32;
  }

  function RolB32(x: bv32): bv32 { (x << 13) | (x >> 19) }

  function RorB32(x: bv32): bv32 { (x >> 13) | (x << 19) }

  lemma RorB32Undoes(x: bv32)
    ensures RorB32(RolB32(x)) == x
  {
    assert RorB32((x << 13) | (x >> 19)) == x;
    hide RorB32;
  }

  function Advance32(x: bv32): bv32 { x * 5 + 0xe6546b64 }

  function Retreat32(x: bv32): bv32 { (x - 0xe6546b64) * 0xcccccccd }

  lemma Retreat32Undoes(x: bv32)
    ensures Retreat32(Advance32(x)) == x
  {
    assert Retreat32(x * 5 + 0xe6546b64) == x;
    hide Retreat32;
  }

  function MulC32(x: bv32): bv32 { x * 0x85ebca6b }

  function DivC32(x: bv32): bv32 { x * 0xa5cb9243 }

  lemma DivC32Undoes(x: bv32)
    ensures DivC32(MulC32(x)) == x
  {
    assert DivC32(x * 0x85ebca6b) == x;
    hide DivC32;
  }

  function MulD32(x: bv32): bv32 { x * 0xc2b2ae35 }

  function DivD32(x: bv32): bv32 { x * 0x7ed1b41d }

  lemma DivD32Undoes(x: bv32)
    ensures DivD32(MulD32(x)) == x
  {
    assert DivD32(x * 0xc2b2ae35) == x;
    hide DivD32;
  }

  function Shift16(x: bv32): bv32 { x ^ (x >> 16) }

  function Unshift16(x: bv32): bv32 { x ^ (x >> 16) }

  lemma Unshift16Undoes(x: bv32)
    ensures Unshift16(Shift16(x)) == x
  {
    assert Unshift16(x ^ (x >> 16)) == x;
    hide Unshift16;
  }

  function Shift13(x: bv32): bv32 { x ^ (x >> 13) }

  function Unshift13(x: bv32): bv32 { x ^ (x >> 13) ^ (x >> 26) }

  lemma Unshift13Undoes(x: bv32)
    ensures Unshift13(Shift13(x)) == x
  {
    assert Unshift13(x ^ (x >> 13)) == x;
    hide Unshift13;
  }

  function Xor32(x: bv32, y: bv32): bv32 { x ^ y }

  lemma XorTwice32(x: bv32, y: bv32)
    ensures Xor32(Xor32(x, y), y) == x && Xor32(Xor32(x, y), x) == y
  {
  }

  /** What a word goes through before it meets the state. */
  function Scramble32(k: bv32): bv32 { MulB32(RolA32(MulA32(k))) }

  function Unscramble32(x: bv32): bv32 { DivA32(RorA32(DivB32(x))) }

  /** One turn of the loop. */
  function Step32(h: bv32, k: bv32): bv32 { Advance32(RolB32(Xor32(h, Scramble32(k)))) }

  function BackH32(g: bv32, k: bv32): bv32 { Xor32(RorB32(Retreat32(g)), Scramble32(k)) }

  function BackK32(g: bv32, h: bv32): bv32 { Unscramble32(Xor32(RorB32(Retreat32(g)), h)) }

  lemma StepBack32(h: bv32, k: bv32)
    ensures BackH32(Step32(h, k), k) == h && BackK32(Step32(h, k), h) == k
  {
    hide MulA32, DivA32, RolA32, RorA32, MulB32, DivB32, RolB32, RorB32, Advance32, Retreat32, Xor32;
    var x := Xor32(h, Scramble32(k));
    Retreat32Undoes(RolB32(x));
    RorB32Undoes(x);
    XorTwice32(h, Scramble32(k));
    DivB32Undoes(RolA32(MulA32(k)));
    RorA32Undoes(MulA32(k));
    DivA32Undoes(k);
  }

  lemma StepInvertible32()
    ensures Invertible(Step32, BackH32, BackK32)
  {
    hide Step32, BackH32, BackK32;
    forall h: bv32, k: bv32 ensures BackH32(Step32(h, k), k) == h && BackK32(Step32(h, k), h) == k {
      StepBack32(h, k);
    }
  }

  /** The final avalanche. */
  function Finish32(h: bv32): bv32 { Shift16(MulD32(Shift13(MulC32(Shift16(h))))) }

  function Unfinish32(x: bv32): bv32 { Unshift16(DivC32(Unshift13(DivD32(Unshift16(x))))) }

  lemma UnfinishUndoes32(x: bv32)
    ensures Unfinish32(Finish32(x)) == x
  {
    hide Shift16, Unshift16, Shift13, Unshift13, MulC32, DivC32, MulD32, DivD32;
    Unshift16Undoes(MulD32(Shift13(MulC32(Shift16(x)))));
    DivD32Undoes(Shift13(MulC32(Shift16(x))));
    Unshift13Undoes(MulC32(Shift16(x)));
    DivC32Undoes(Shift16(x));
    Unshift16Undoes(x);
  }

  /** The 32-bit `hash32`, from the state that seed and length give. */
  method Hash32(data: seq<bv32>, h0: bv32) returns (h: bv32)
    ensures h == Finish32(Absorb(Step32, h0, data))
  {
    hide Step32, Finish32;
    h := h0;
    assert data[0..] == data;
    for i := 0 to |data|
      invariant Absorb(Step32, h, data[i..]) == Absorb(Step32, h0, data)
    {
      assert data[i..][1..] == data[i + 1..];
      h := Step32(h, data[i]);
    }
    h := Finish32(h);
  }

  /** Any one word can be read off the hash, given the others. */
  lemma WordFromHash32(data: seq<bv32>, h0: bv32, i: nat)
    requires i < |data|
    ensures data[i] == BackK32(Rewind(BackH32, Unfinish32(Finish32(Absorb(Step32, h0, data))), data[i + 1..]), Absorb(Step32, h0, data[..i]))
  {
    hide Step32, Finish32, Unfinish32, BackH32, BackK32;
    StepInvertible32();
    UnfinishUndoes32(Absorb(Step32, h0, data));
    WordFromState(Step32, BackH32, BackK32, h0, data, i);
  }

  /** Two buffers that differ in exactly one word never have the same hash. */
  lemma NoCollision32(a: seq<bv32>, b: seq<bv32>, h0: bv32, i: nat)
    requires |a| == |b| && i < |a| && a[i] != b[i] && forall j :: 0 <= j < |a| && j != i ==> a[j] == b[j]
    ensures Finish32(Absorb(Step32, h0, a)) != Finish32(Absorb(Step32, h0, b))
  {
    hide Step32, Finish32, Unfinish32, BackH32, BackK32;
    assert a[..i] == b[..i] && a[i + 1..] == b[i + 1..];
    WordFromHash32(a, h0, i);
    WordFromHash32(b, h0, i);
  }

  /** The hash of the words 1 and 2, eight bytes in all, under the fuzzer's seed. */
  lemma Example32()
    ensures Finish32(Absorb(Step32, 0xa5b35705 ^ 8, [1, 2])) == 0x791e63f4
  {
    assert [1, 2][1..] == [2] && [2][1..] == [];
    assert Absorb(Step32, 0xa5b35705 ^ 8, [1, 2]) == Step32(Step32(0xa5b35705 ^ 8, 1), 2);
  }

  // ---------------------------------------------------------------------------------------------
  // 64 bits

  function MulA64(x: bv64): bv64 { x * 0x87c37b91114253d5 }

  function DivA64(x: bv64): bv64 { x * 0xa98409e882ce4d7d }

  lemma DivA64Undoes(x: bv64)
    ensures DivA64(MulA64(x)) == x
  {
    assert DivA64(x * 0x87c37b91114253d5) == x;
    hide DivA64;
  }

  function RolA64(x: bv64): bv64 { (x << 31) | (x >> 33) }

  function RorA64(x: bv64): bv64 { (x >> 31) | (x << 33) }

  lemma RorA64Undoes(x: bv64)
    ensures RorA64(RolA64(x)) == x
  {
    assert RorA64((x << 31) | (x >> 33)) == x;
    hide RorA64;
  }

  function MulB64(x: bv64): bv64 { x * 0x4cf5ad432745937f }

  function DivB64(x: bv64): bv64 { x * 0xa81e14edd9de2c7f }

  lemma DivB64Undoes(x: bv64)
    ensures DivB64(MulB64(x)) == x
  {
    assert DivB64(x * 0x4cf5ad432745937f) == x;
    hide DivB64;
  }

  function RolB64(x: bv64): bv64 { (x << 27) | (x >> 37) }

  function RorB64(x: bv64): bv64 { (x >> 27) | (x << 37) }

  lemma RorB64Undoes(x: bv64)
    ensures RorB64(RolB64(x)) == x
  {
    assert RorB64((x << 27) | (x >> 37)) == x;
    hide RorB64;
  }

  function Advance64(x: bv64): bv64 { x * 5 + 0x52dce729 }

  function Retreat64(x: bv64): bv64 { (x - 0x52dce729) * 0xcccccccccccccccd }

  lemma Retreat64Undoes(x: bv64)
    ensures Retreat64(Advance64(x)) == x
  {
    assert Retreat64(x * 5 + 0x52dce729) == x;
    hide Retreat64;
  }

  function MulC64(x: bv64): bv64 { x * 0xff51afd7ed558ccd }

  function DivC64(x: bv64): bv64 { x * 0x4f74430c22a54005 }

  lemma DivC64Undoes(x: bv64)
    ensures DivC64(MulC64(x)) == x
  {
    assert DivC64(x * 0xff51afd7ed558ccd) == x;
    hide DivC64;
  }

  function MulD64(x: bv64): bv64 { x * 0xc4ceb9fe1a85ec53 }

  function DivD64(x: bv64): bv64 { x * 0x9cb4b2f8129337db }

  lemma DivD64Undoes(x: bv64)
    ensures DivD64(MulD64(x)) == x
  {
    assert DivD64(x * 0xc4ceb9fe1a85ec53) == x;
    hide DivD64;
  }

  function Shift33(x: bv64): bv64 { x ^ (x >> 33) }

  function Unshift33(x: bv64): bv64 { x ^ (x >> 33) }

  lemma Unshift33Undoes(x: bv64)
    ensures Unshift33(Shift33(x)) == x
  {
    assert Unshift33(x ^ (x >> 33)) == x;
    hide Unshift33;
  }

  function Xor64(x: bv64, y: bv64): bv64 { x ^ y }

  lemma XorTwice64(x: bv64, y: bv64)
    ensures Xor64(Xor64(x, y), y) == x && Xor64(Xor64(x, y), x) == y
  {
  }

  /** What a word goes through before it meets the state. */
  function Scramble64(k: bv64): bv64 { MulB64(RolA64(MulA64(k))) }

  function Unscramble64(x: bv64): bv64 { DivA64(RorA64(DivB64(x))) }

  /** One turn of the loop. */
  function Step64(h: bv64, k: bv64): bv64 { Advance64(RolB64(Xor64(h, Scramble64(k)))) }

  function BackH64(g: bv64, k: bv64): bv64 { Xor64(RorB64(Retreat64(g)), Scramble64(k)) }

  function BackK64(g: bv64, h: bv64): bv64 { Unscramble64(Xor64(RorB64(Retreat64(g)), h)) }

  lemma StepBack64(h: bv64, k: bv64)
    ensures BackH64(Step64(h, k), k) == h && BackK64(Step64(h, k), h) == k
  {
    hide MulA64, DivA64, RolA64, RorA64, MulB64, DivB64, RolB64, RorB64, Advance64, Retreat64, Xor64;
    var x := Xor64(h, Scramble64(k));
    Retreat64Undoes(RolB64(x));
    RorB64Undoes(x);
    XorTwice64(h, Scramble64(k));
    DivB64Undoes(RolA64(MulA64(k)));
    RorA64Undoes(MulA64(k));
    DivA64Undoes(k);
  }

  lemma StepInvertible64()
    ensures Invertible(Step64, BackH64, BackK64)
  {
    hide Step64, BackH64, BackK64;
    forall h: bv64, k: bv64 ensures BackH64(Step64(h, k), k) == h && BackK64(Step64(h, k), h) == k {
      StepBack64(h, k);
    }
  }

  /** The final avalanche. */
  function Finish64(h: bv64): bv64 { Shift33(MulD64(Shift33(MulC64(Shift33(h))))) }

  function Unfinish64(x: bv64): bv64 { Unshift33(DivC64(Unshift33(DivD64(Unshift33(x))))) }

  lemma UnfinishUndoes64(x: bv64)
    ensures Unfinish64(Finish64(x)) == x
  {
    hide Shift33, Unshift33, MulC64, DivC64, MulD64, DivD64;
    Unshift33Undoes(MulD64(Shift33(MulC64(Shift33(x)))));
    DivD64Undoes(Shift33(MulC64(Shift33(x))));
    Unshift33Undoes(MulC64(Shift33(x)));
    DivC64Undoes(Shift33(x));
    Unshift33Undoes(x);
  }

  /** The 64-bit `hash32` before its result is cut to 32 bits. */
  method Hash64(data: seq<bv64>, h0: bv64) returns (h: bv64)
    ensures h == Finish64(Absorb(Step64, h0, data))
  {
    hide Step64, Finish64;
    h := h0;
    assert data[0..] == data;
    for i := 0 to |data|
      invariant Absorb(Step64, h, data[i..]) == Absorb(Step64, h0, data)
    {
      assert data[i..][1..] == data[i + 1..];
      h := Step64(h, data[i]);
    }
    h := Finish64(h);
  }

  /** Any one word can be read off the hash, given the others. */
  lemma WordFromHash64(data: seq<bv64>, h0: bv64, i: nat)
    requires i < |data|
    ensures data[i] == BackK64(Rewind(BackH64, Unfinish64(Finish64(Absorb(Step64, h0, data))), data[i + 1..]), Absorb(Step64, h0, data[..i]))
  {
    hide Step64, Finish64, Unfinish64, BackH64, BackK64;
    StepInvertible64();
    UnfinishUndoes64(Absorb(Step64, h0, data));
    WordFromState(Step64, BackH64, BackK64, h0, data, i);
  }

  /** Two buffers that differ in exactly one word never have the same hash. */
  lemma NoCollision64(a: seq<bv64>, b: seq<bv64>, h0: bv64, i: nat)
    requires |a| == |b| && i < |a| && a[i] != b[i] && forall j :: 0 <= j < |a| && j != i ==> a[j] == b[j]
    ensures Finish64(Absorb(Step64, h0, a)) != Finish64(Absorb(Step64, h0, b))
  {
    hide Step64, Finish64, Unfinish64, BackH64, BackK64;
    assert a[..i] == b[..i] && a[i + 1..] == b[i + 1..];
    WordFromHash64(a, h0, i);
    WordFromHash64(b, h0, i);
  }

  lemma Example64()
    ensures Finish64(Absorb(Step64, 0xa5b35705 ^ 16, [1, 2])) == 0xd872d8fbf98d6ce3
  {
    assert [1, 2][1..] == [2] && [2][1..] == [];
    assert Absorb(Step64, 0xa5b35705 ^ 16, [1, 2]) == Step64(Step64(0xa5b35705 ^ 16, 1), 2);
  }
}
