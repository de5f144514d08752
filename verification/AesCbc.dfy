/** Cipher block chaining over the block routines: `AES_cbc_encrypt` for both directions, every length
    and buffers that may coincide. */
module AesCbc {
  import opened AesSpec
  import opened Aes

  function XorBlock(a: Block, b: Block): Block {
    seq(16, i requires 0 <= i < 16 => Xor(a[i], b[i]))
  }

  lemma XorBlockCancels(a: Block, b: Block)
    ensures XorBlock(XorBlock(a, b), b) == a
  {
    hide Xor;
    forall i | 0 <= i < 16
      ensures Xor(Xor(a[i], b[i]), b[i]) == a[i]
    {
      XorCancels(a[i], b[i]);
    }
  }

  function Zeros(n: nat): seq<bv8> { seq(n, _ => 0) }

  /** A partial last block is encrypted as if it were followed by zero bytes. */
  function Pad(p: seq<bv8>): Block
    requires |p| < 16
  {
    p + Zeros(16 - |p|)
  }

  /** The block ciphers that a schedule gives. */
  ghost function Enc(k: seq<State>): Block -> Block
    requires |k| >= 2
  {
    b => EncryptBlock(b, k)
  }

  ghost function Dec(dk: seq<State>): Block -> Block
    requires |dk| >= 2
  {
    b => DecryptBlock(b, dk)
  }

  lemma AesUndoes(k: seq<State>, dk: seq<State>)
    requires IsInverseSchedule(k, dk)
    ensures Undoes(Dec(dk), Enc(k))
  {
    hide EncryptBlock, DecryptBlock;
    forall b: Block
      ensures Dec(dk)(Enc(k)(b)) == b
    {
      DecryptBlockUndoes(b, k, dk);
    }
  }

  function RoundUp(n: nat): nat { (n + 15) / 16 * 16 }

  ghost predicate Undoes(d: Block -> Block, e: Block -> Block) {
    forall b: Block :: d(e(b)) == b
  }

  /** Encryption of message `p` under block cipher `e` (section 6.2 of NIST SP 800-38A). */
  function CbcEncrypt(e: Block -> Block, iv: Block, p: seq<bv8>): (c: seq<bv8>)
    ensures |c| == RoundUp(|p|)
    decreases |p|
  {
    if p == [] then []
    else if |p| < 16 then e(XorBlock(Pad(p), iv))
    else
      var c0 := e(XorBlock(p[..16], iv));
      c0 + CbcEncrypt(e, c0, p[16..])
  }

  /** What encryption leaves in `ivec`: the last ciphertext block. */
  function EncryptIv(e: Block -> Block, iv: Block, p: seq<bv8>): Block
  {
    if p == [] then iv else var c := CbcEncrypt(e, iv, p); c[|c| - 16..]
  }

  function CbcDecrypt(d: Block -> Block, iv: Block, c: seq<bv8>, len: nat): (p: seq<bv8>)
    requires RoundUp(len) <= |c|
    ensures |p| == len
    decreases len
  {
    if len == 0 then []
    else if len < 16 then XorBlock(d(c[..16]), iv)[..len]
    else XorBlock(d(c[..16]), iv) + CbcDecrypt(d, c[..16], c[16..], len - 16)
  }

  /** What decryption leaves in `ivec`: the last ciphertext block, except after a partial block, where
      the source copies the decrypted block instead. */
  function DecryptIv(d: Block -> Block, iv: Block, c: seq<bv8>, len: nat): Block
    requires RoundUp(len) <= |c|
    decreases len
  {
    if len == 0 then iv
    else if len < 16 then d(c[..16])
    else DecryptIv(d, c[..16], c[16..], len - 16)
  }

  // ---------------------------------------------------------------------------------------------
  // Properties

  /** Decrypting the padded ciphertext with the same vector returns the plaintext, for every length. */
  lemma {:induction false} RoundTripCbc(e: Block -> Block, d: Block -> Block, iv: Block, p: seq<bv8>)
    requires Undoes(d, e)
    ensures CbcDecrypt(d, iv, CbcEncrypt(e, iv, p), |p|) == p
    decreases |p|
  {
    hide XorBlock;
    var c := CbcEncrypt(e, iv, p);
    if p == [] {
    } else if |p| < 16 {
      assert d(e(XorBlock(Pad(p), iv))) == XorBlock(Pad(p), iv);
      XorBlockCancels(Pad(p), iv);
      assert c[..16] == c;
      assert Pad(p)[..|p|] == p;
    } else {
      var x := XorBlock(p[..16], iv);
      assert d(e(x)) == x;
      XorBlockCancels(p[..16], iv);
      assert c[..16] == e(x) && c[16..] == CbcEncrypt(e, e(x), p[16..]);
      RoundTripCbc(e, d, e(x), p[16..]);
      assert p == p[..16] + p[16..];
    }
  }

  /** Block `i` of the ciphertext is the cipher of block `i` of the message masked by the ciphertext block before it, or
      by the vector. */
  lemma {:induction false} CipherBlock(e: Block -> Block, iv: Block, p: seq<bv8>, i: nat)
    requires |p| % 16 == 0 && 16 * i < |p|
    ensures var c := CbcEncrypt(e, iv, p);
      c[16 * i..16 * i + 16] == e(XorBlock(p[16 * i..16 * i + 16], if i == 0 then iv else c[16 * i - 16..16 * i]))
    decreases |p|
  {
    hide XorBlock;
    var c, c0 := CbcEncrypt(e, iv, p), e(XorBlock(p[..16], iv));
    var rest := CbcEncrypt(e, c0, p[16..]);
    assert c == c0 + rest && c[..16] == c0 && c[16..] == rest;
    if i > 0 {
      CipherBlock(e, c0, p[16..], i - 1);
      assert p[16..][16 * i - 16..16 * i] == p[16 * i..16 * i + 16];
      assert c[16 * i..16 * i + 16] == rest[16 * i - 16..16 * i];
      assert i > 1 ==> c[16 * i - 16..16 * i] == rest[16 * i - 32..16 * i - 16];
    }
  }

  /** One call on whole blocks followed by a second call that carries the vector is the same as one
      call on everything. */
  lemma {:induction false} EncryptChains(e: Block -> Block, iv: Block, p: seq<bv8>, q: seq<bv8>)
    requires |p| % 16 == 0
    ensures CbcEncrypt(e, iv, p + q) == CbcEncrypt(e, iv, p) + CbcEncrypt(e, EncryptIv(e, iv, p), q)
    decreases |p|
  {
    hide XorBlock, CbcEncrypt, EncryptIv;
    if p == [] {
      assert p + q == q;
      NoBlock(e, iv);
      assert [] + CbcEncrypt(e, iv, q) == CbcEncrypt(e, iv, q);
    } else {
      var c0 := e(XorBlock(p[..16], iv));
      EncryptChains(e, c0, p[16..], q);
      assert (p + q)[..16] == p[..16] && (p + q)[16..] == p[16..] + q;
      CbcStep(e, iv, p);
      CbcStep(e, iv, p + q);
      IvOfRest(e, iv, p);
      Associate(c0, CbcEncrypt(e, c0, p[16..]), CbcEncrypt(e, EncryptIv(e, iv, p), q));
    }
  }

  /** And so is the vector carried on, hence any number of calls. */
  lemma EncryptIvChains(e: Block -> Block, iv: Block, p: seq<bv8>, q: seq<bv8>)
    requires |p| % 16 == 0
    ensures EncryptIv(e, iv, p + q) == EncryptIv(e, EncryptIv(e, iv, p), q)
  {
    hide XorBlock, CbcEncrypt;
    EncryptChains(e, iv, p, q);
    if q == [] {
      assert p + q == p;
    } else {
      var c1, c2 := CbcEncrypt(e, iv, p), CbcEncrypt(e, EncryptIv(e, iv, p), q);
      assert (c1 + c2)[|c1| + |c2| - 16..] == c2[|c2| - 16..];
    }
  }

  /** The same for decryption: output and vector of one call on everything are those of a call on whole
      blocks and a second call on the rest that carries the vector. */
  lemma {:induction false} DecryptChains(d: Block -> Block, iv: Block, c: seq<bv8>, a: nat, b: nat)
    requires a % 16 == 0 && RoundUp(a + b) <= |c|
    ensures a <= |c| && RoundUp(a) <= |c| && RoundUp(b) <= |c| - a
    ensures CbcDecrypt(d, iv, c, a + b) == CbcDecrypt(d, iv, c, a) + CbcDecrypt(d, DecryptIv(d, iv, c, a), c[a..], b)
    ensures DecryptIv(d, iv, c, a + b) == DecryptIv(d, DecryptIv(d, iv, c, a), c[a..], b)
    decreases a
  {
    hide XorBlock;
    if a == 0 {
      assert c[0..] == c;
    } else {
      DecryptChains(d, c[..16], c[16..], a - 16, b);
      assert c[16..][a - 16..] == c[a..];
    }
  }

  lemma CbcStep(e: Block -> Block, iv: Block, p: seq<bv8>)
    requires |p| >= 16
    ensures var c0 := e(XorBlock(p[..16], iv));
      CbcEncrypt(e, iv, p) == c0 + CbcEncrypt(e, c0, p[16..])
  {
    hide XorBlock;
  }

  lemma Associate<T>(a: seq<T>, b: seq<T>, c: seq<T>)
    ensures a + (b + c) == (a + b) + c
  {
  }

  lemma IvOfRest(e: Block -> Block, iv: Block, p: seq<bv8>)
    requires |p| >= 16
    ensures EncryptIv(e, iv, p) == EncryptIv(e, e(XorBlock(p[..16], iv)), p[16..])
  {
    hide XorBlock;
    var c0 := e(XorBlock(p[..16], iv));
    var rest := CbcEncrypt(e, c0, p[16..]);
    var c: seq<bv8> := c0 + rest;
    if |p| == 16 {
      assert c[|c| - 16..] == c0;
    } else {
      assert c[|c| - 16..] == rest[|rest| - 16..];
    }
  }

  /** After whole blocks both directions leave the same vector. */
  lemma {:induction false} VectorsAgree(e: Block -> Block, d: Block -> Block, iv: Block, p: seq<bv8>)
    requires Undoes(d, e) && |p| % 16 == 0
    ensures DecryptIv(d, iv, CbcEncrypt(e, iv, p), |p|) == EncryptIv(e, iv, p)
    decreases |p|
  {
    hide XorBlock;
    if p != [] {
      var c := CbcEncrypt(e, iv, p);
      var c0 := e(XorBlock(p[..16], iv));
      assert c[..16] == c0 && c[16..] == CbcEncrypt(e, c0, p[16..]);
      VectorsAgree(e, d, c0, p[16..]);
      IvOfRest(e, iv, p);
    }
  }

  /** Only the padded length of the ciphertext matters. */
  lemma {:induction false} DecryptsPrefix(d: Block -> Block, iv: Block, c: seq<bv8>, c': seq<bv8>, len: nat)
    requires RoundUp(len) == |c| && c <= c'
    ensures CbcDecrypt(d, iv, c', len) == CbcDecrypt(d, iv, c, len)
    ensures DecryptIv(d, iv, c', len) == DecryptIv(d, iv, c, len)
    decreases len
  {
    hide XorBlock;
    if len > 0 {
      assert c'[..16] == c[..16];
      if len >= 16 {
        assert c[16..] <= c'[16..];
        DecryptsPrefix(d, c[..16], c[16..], c'[16..], len - 16);
      }
    }
  }

  /** The block that the cipher meets last, when the message ends in a partial block. */
  ghost function LastMasked(e: Block -> Block, iv: Block, p: seq<bv8>): Block {
    var w := |p| / 16 * 16;
    XorBlock(Pad(p[w..]), EncryptIv(e, iv, p[..w]))
  }

  lemma VectorsAfterShort(e: Block -> Block, d: Block -> Block, iv: Block, p: seq<bv8>)
    requires Undoes(d, e) && 0 < |p| < 16
    ensures var x := XorBlock(Pad(p), iv);
      EncryptIv(e, iv, p) == e(x) && DecryptIv(d, iv, CbcEncrypt(e, iv, p), |p|) == x
  {
    hide XorBlock, Pad;
    var c := CbcEncrypt(e, iv, p);
    assert c[..16] == c && c[|c| - 16..] == c;
    assert d(e(XorBlock(Pad(p), iv))) == XorBlock(Pad(p), iv);
  }

  lemma VectorsAfterPartial(e: Block -> Block, d: Block -> Block, iv: Block, p: seq<bv8>)
    requires Undoes(d, e) && |p| % 16 != 0
    ensures var x := LastMasked(e, iv, p);
      && EncryptIv(e, iv, p) == e(x)
      && DecryptIv(d, iv, CbcEncrypt(e, iv, p), |p|) == x
  {
    hide XorBlock, Pad, CbcEncrypt, EncryptIv, DecryptIv, CbcDecrypt, Undoes;
    var w := |p| / 16 * 16;
    var a, q := p[..w], p[w..];
    assert p == a + q;
    var iv2, c1 := EncryptIv(e, iv, a), CbcEncrypt(e, iv, a);
    var c2 := CbcEncrypt(e, iv2, q);
    EncryptChains(e, iv, a, q);
    EncryptIvChains(e, iv, a, q);
    DecryptChains(d, iv, c1 + c2, w, |q|);
    assert (c1 + c2)[w..] == c2;
    DecryptsPrefix(d, iv, c1, c1 + c2, w);
    VectorsAgree(e, d, iv, a);
    VectorsAfterShort(e, d, iv2, q);
  }

  /** Both directions leave the same vector exactly after whole blocks, and after a partial block only in
      the accident that the cipher maps the last masked block to itself; so a caller that carries the
      vector on must not decrypt a partial block. */
  lemma SameVectors(e: Block -> Block, d: Block -> Block, iv: Block, p: seq<bv8>)
    requires Undoes(d, e)
    ensures DecryptIv(d, iv, CbcEncrypt(e, iv, p), |p|) == EncryptIv(e, iv, p)
            <==> |p| % 16 == 0 || e(LastMasked(e, iv, p)) == LastMasked(e, iv, p)
  {
    hide XorBlock, Pad, LastMasked, CbcEncrypt, EncryptIv, DecryptIv;
    if |p| % 16 == 0 {
      VectorsAgree(e, d, iv, p);
    } else {
      VectorsAfterPartial(e, d, iv, p);
    }
  }

  /** A cipher and a one-byte message after which the vectors differ. */
  lemma PartialVectorsDiffer() returns (e: Block -> Block, iv: Block, p: seq<bv8>)
    ensures Undoes(e, e) && DecryptIv(e, iv, CbcEncrypt(e, iv, p), |p|) != EncryptIv(e, iv, p)
  {
    var ones: Block := seq(16, _ => 1);
    iv, p := Zeros(16), [0];
    e := b => XorBlock(b, ones);
    forall b: Block ensures e(e(b)) == b { XorBlockCancels(b, ones); }
    SameVectors(e, e, iv, p);
    var x := LastMasked(e, iv, p);
    assert e(x)[0] == Xor(x[0], 1);
    FlipsLowBit(x[0]);
  }

  lemma FlipsLowBit(x: bv8)
    ensures Xor(x, 1) != x
  {
  }

  // ---------------------------------------------------------------------------------------------
  // In-place code

  method PutBytes<T>(a: array<T>, at: nat, b: seq<T>)
    requires at + |b| <= a.Length
    modifies a
    ensures a[..] == old(a[..])[..at] + b + old(a[..])[at + |b|..]
  {
    var n := 0;
    while n < |b|
      invariant 0 <= n <= |b|
      invariant forall k :: 0 <= k < a.Length ==> a[k] == if at <= k < at + n then b[k - at] else old(a[..])[k]
    {
      a[at + n] := b[n];
      n := n + 1;
    }
  }

  method XorBlocks(a: Block, b: Block) returns (t: Block)
    ensures t == XorBlock(a, b)
  {
    hide Xor;
    var u: seq<bv8> := [];
    var n := 0;
    while n < 16
      invariant 0 <= n <= 16 && |u| == n
      invariant forall i :: 0 <= i < n ==> u[i] == Xor(a[i], b[i])
    {
      u := u + [Xor(a[n], b[n])];
      n := n + 1;
    }
    t := u;
  }

  /** Encrypt the block at `at`. The rest of the input is still intact afterwards, even in place. */
  method EncryptStep(inp: array<bv8>, out: array<bv8>, at: nat, n: nat, key: AesKey, ivec: array<bv8>)
    requires key.Valid() && ivec.Length == 16 && ivec != inp && ivec != out
    requires 0 < n <= 16 && at + n <= inp.Length && at + 16 <= out.Length
    modifies out, ivec
    ensures key.Valid() && key.Schedule() == old(key.Schedule())
    ensures ivec[..] == EncryptBlock(XorBlock(if n < 16 then Pad(old(inp[at..at + n])) else old(inp[at..at + n]), old(ivec[..])), key.Schedule())
    ensures out[..at + 16] == old(out[..at]) + ivec[..]
    ensures at + 16 <= inp.Length ==> inp[at + 16..] == old(inp[at + 16..])
  {
    hide EncryptBlock, XorBlock, KeyStates, Pad;
    var tmp := XorBlocks(if n < 16 then Pad(inp[at..at + n]) else inp[at..at + n], ivec[..]);
    var c := Encrypt(tmp, key);
    PutBytes(out, at, c);
    PutBytes(ivec, 0, c);
    assert ivec[..] == c;
    assert out[..][..at + 16] == out[..at + 16];
  }

  /** `done` has been written, the vector is `cur`, and encrypting `rest` completes the job. */
  ghost predicate Encrypting(e: Block -> Block, iv: Block, p: seq<bv8>, done: seq<bv8>, cur: Block, rest: seq<bv8>) {
    done + CbcEncrypt(e, cur, rest) == CbcEncrypt(e, iv, p) && EncryptIv(e, cur, rest) == EncryptIv(e, iv, p)
  }

  lemma EncryptingStarts(e: Block -> Block, iv: Block, p: seq<bv8>)
    ensures Encrypting(e, iv, p, [], iv, p)
  {
    assert [] + CbcEncrypt(e, iv, p) == CbcEncrypt(e, iv, p);
  }

  lemma EncryptingStep(e: Block -> Block, iv: Block, p: seq<bv8>, done: seq<bv8>, cur: Block, rest: seq<bv8>)
    requires Encrypting(e, iv, p, done, cur, rest) && |rest| >= 16
    ensures var c0 := e(XorBlock(rest[..16], cur));
      Encrypting(e, iv, p, done + c0, c0, rest[16..])
  {
    hide XorBlock, CbcEncrypt, EncryptIv;
    var c0 := e(XorBlock(rest[..16], cur));
    CbcStep(e, cur, rest);
    IvOfRest(e, cur, rest);
    Associate(done, c0, CbcEncrypt(e, c0, rest[16..]));
  }

  lemma EncryptingEnds(e: Block -> Block, iv: Block, p: seq<bv8>, done: seq<bv8>, cur: Block, rest: seq<bv8>)
    requires Encrypting(e, iv, p, done, cur, rest) && |rest| < 16
    ensures rest == [] ==> done == CbcEncrypt(e, iv, p) && cur == EncryptIv(e, iv, p)
    ensures rest != [] ==>
      var c0 := e(XorBlock(Pad(rest), cur));
      done + c0 == CbcEncrypt(e, iv, p) && c0 == EncryptIv(e, iv, p)
  {
    hide XorBlock;
    if rest != [] {
      var c := CbcEncrypt(e, cur, rest);
      assert c[|c| - 16..] == c;
    }
  }

  /** A stretch of a buffer, its first block and what follows. */
  lemma Slices<T>(s: seq<T>, at: nat, end: nat)
    requires at + 16 <= end <= |s|
    ensures s[at..at + 16] == s[at..end][..16]
    ensures s[at + 16..][..end - at - 16] == s[at..end][16..]
  {
  }

  method EncryptBuffer(inp: array<bv8>, out: array<bv8>, length: nat, key: AesKey, ivec: array<bv8>)
    requires key.Valid() && ivec.Length == 16 && ivec != inp && ivec != out
    requires length <= inp.Length && RoundUp(length) <= out.Length
    modifies out, ivec
    ensures key.Valid() && key.Schedule() == old(key.Schedule())
    ensures out[..RoundUp(length)] == CbcEncrypt(Enc(key.Schedule()), old(ivec[..]), old(inp[..length]))
    ensures ivec[..] == EncryptIv(Enc(key.Schedule()), old(ivec[..]), old(inp[..length]))
  {
    hide EncryptBlock, XorBlock, KeyStates, CbcEncrypt, EncryptIv, Pad, Encrypting;
    ghost var k := key.Schedule();
    ghost var e, iv, p := Enc(k), ivec[..], inp[..length];
    var len, at := length, 0;
    EncryptingStarts(e, iv, p);
    assert out[..0] == [] && p[0..] == p;
    while len >= 16
      invariant at + len == length && 0 <= len && at % 16 == 0 && key.Schedule() == k && ivec.Length == 16
      invariant inp[at..length] == p[at..]
      invariant Encrypting(e, iv, p, out[..at], ivec[..], p[at..])
    {
      ghost var rest := p[at..];
      EncryptingStep(e, iv, p, out[..at], ivec[..], rest);
      Slices(inp[..], at, length);
      EncryptStep(inp, out, at, 16, key, ivec);
      assert rest[16..] == p[at + 16..];
      len, at := len - 16, at + 16;
      assert inp[at..length] == inp[at..][..len];
    }
    EncryptingEnds(e, iv, p, out[..at], ivec[..], p[at..]);
    if len > 0 {
      assert RoundUp(length) == at + 16;
      EncryptStep(inp, out, at, len, key, ivec);
    } else {
      assert RoundUp(length) == at;
    }
  }

  lemma NoBlock(e: Block -> Block, iv: Block)
    ensures CbcEncrypt(e, iv, []) == [] && EncryptIv(e, iv, []) == iv
  {
  }

  /** Decrypt the block at `at` into `n` bytes of output. */
  method DecryptStep(inp: array<bv8>, out: array<bv8>, at: nat, n: nat, key: AesKey, ivec: array<bv8>)
    requires key.Valid() && ivec.Length == 16 && ivec != inp && ivec != out
    requires 0 < n <= 16 && at + 16 <= inp.Length && at + n <= out.Length
    modifies out, ivec
    ensures key.Valid() && key.Schedule() == old(key.Schedule())
    ensures ivec[..] == if n < 16 then DecryptBlock(old(inp[at..at + 16]), key.Schedule()) else old(inp[at..at + 16])
    ensures out[..at + n] == old(out[..at]) + XorBlock(DecryptBlock(old(inp[at..at + 16]), key.Schedule()), old(ivec[..]))[..n]
    ensures inp[at + 16..] == old(inp[at + 16..])
  {
    hide DecryptBlock, XorBlock, KeyStates;
    var tmp: Block := inp[at..at + 16];
    var d := Decrypt(tmp, key);
    var p := XorBlocks(d, ivec[..]);
    PutBytes(out, at, p[..n]);
    PutBytes(ivec, 0, if n < 16 then d else tmp);
    assert out[..][..at + n] == out[..at + n];
  }

  lemma FirstCipherBlock(d: Block -> Block, iv: Block, c: seq<bv8>, len: nat, done: seq<bv8>)
    requires 0 < len && RoundUp(len) <= |c|
    ensures |c| >= 16
    ensures len >= 16 ==>
              var p0 := XorBlock(d(c[..16]), iv);
              && RoundUp(len - 16) <= |c| - 16
              && done + CbcDecrypt(d, iv, c, len) == done + p0 + CbcDecrypt(d, c[..16], c[16..], len - 16)
              && DecryptIv(d, iv, c, len) == DecryptIv(d, c[..16], c[16..], len - 16)
    ensures len < 16 ==> CbcDecrypt(d, iv, c, len) == XorBlock(d(c[..16]), iv)[..len] && DecryptIv(d, iv, c, len) == d(c[..16])
  {
    hide XorBlock;
    if len >= 16 {
      var p0 := XorBlock(d(c[..16]), iv);
      assert done + (p0 + CbcDecrypt(d, c[..16], c[16..], len - 16)) == done + p0 + CbcDecrypt(d, c[..16], c[16..], len - 16);
    }
  }

  method DecryptBuffer(inp: array<bv8>, out: array<bv8>, length: nat, key: AesKey, ivec: array<bv8>)
    requires key.Valid() && ivec.Length == 16 && ivec != inp && ivec != out
    requires RoundUp(length) <= inp.Length && length <= out.Length
    modifies out, ivec
    ensures key.Valid() && key.Schedule() == old(key.Schedule())
    ensures out[..length] == CbcDecrypt(Dec(key.Schedule()), old(ivec[..]), old(inp[..]), length)
    ensures ivec[..] == DecryptIv(Dec(key.Schedule()), old(ivec[..]), old(inp[..]), length)
  {
    hide DecryptBlock, XorBlock, KeyStates, CbcDecrypt, DecryptIv;
    ghost var k := key.Schedule();
    ghost var d, iv, c := Dec(k), ivec[..], inp[..];
    var len, at := length, 0;
    assert out[..0] + CbcDecrypt(d, iv, c, length) == CbcDecrypt(d, iv, c, length);
    assert c[0..] == c;
    while len >= 16
      invariant at + len == length && 0 <= len && at <= |c| && RoundUp(len) <= |c| - at
      invariant key.Schedule() == k && ivec.Length == 16 && |c| == inp.Length
      invariant inp[at..] == c[at..]
      invariant out[..at] + CbcDecrypt(d, ivec[..], c[at..], len) == CbcDecrypt(d, iv, c, length)
      invariant DecryptIv(d, ivec[..], c[at..], len) == DecryptIv(d, iv, c, length)
    {
      ghost var rest := c[at..];
      FirstCipherBlock(d, ivec[..], rest, len, out[..at]);
      assert inp[at..at + 16] == inp[at..][..16] == rest[..16];
      assert inp[at + 16..] == inp[at..][16..];
      DecryptStep(inp, out, at, 16, key, ivec);
      assert rest[16..] == c[at + 16..];
      len, at := len - 16, at + 16;
    }
    if len > 0 {
      FirstCipherBlock(d, ivec[..], c[at..], len, out[..at]);
      assert inp[at..at + 16] == inp[at..][..16];
      DecryptStep(inp, out, at, len, key, ivec);
    } else {
      NothingLeft(d, ivec[..], c[at..]);
    }
  }

  lemma NothingLeft(d: Block -> Block, iv: Block, c: seq<bv8>)
    ensures CbcDecrypt(d, iv, c, 0) == [] && DecryptIv(d, iv, c, 0) == iv
  {
  }

  /** `AES_cbc_encrypt`: `enc` selects the direction. */
  method CbcCrypt(inp: array<bv8>, out: array<bv8>, length: nat, key: AesKey, ivec: array<bv8>, enc: bool)
    requires key.Valid() && ivec.Length == 16 && ivec != inp && ivec != out
    requires enc ==> length <= inp.Length && RoundUp(length) <= out.Length
    requires !enc ==> RoundUp(length) <= inp.Length && length <= out.Length
    modifies out, ivec
    ensures key.Valid() && key.Schedule() == old(key.Schedule())
    ensures enc ==>
              && out[..RoundUp(length)] == CbcEncrypt(Enc(key.Schedule()), old(ivec[..]), old(inp[..length]))
              && ivec[..] == EncryptIv(Enc(key.Schedule()), old(ivec[..]), old(inp[..length]))
    ensures !enc ==>
              && out[..length] == CbcDecrypt(Dec(key.Schedule()), old(ivec[..]), old(inp[..]), length)
              && ivec[..] == DecryptIv(Dec(key.Schedule()), old(ivec[..]), old(inp[..]), length)
  {
    if enc {
      EncryptBuffer(inp, out, length, key, ivec);
    } else {
      DecryptBuffer(inp, out, length, key, ivec);
    }
  }

  lemma RoundTripAes(k: seq<State>, dk: seq<State>, iv: Block, p: seq<bv8>)
    requires IsInverseSchedule(k, dk)
    ensures CbcDecrypt(Dec(dk), iv, CbcEncrypt(Enc(k), iv, p), |p|) == p
  {
    hide CbcEncrypt, CbcDecrypt, EncryptBlock, DecryptBlock, InvMixColumns;
    AesUndoes(k, dk);
    RoundTripCbc(Enc(k), Dec(dk), iv, p);
  }

  /** Both keys from one user key; encrypt, then decrypt the padded ciphertext from the same vector. The
      three buffers may be one and the same. For every length the plaintext comes back. */
  method RoundTripBuffers(userKey: seq<bv8>, bits: int, inp: array<bv8>, mid: array<bv8>, out: array<bv8>, length: nat, iv: Block)
    requires bits == 128 || bits == 192 || bits == 256
    requires 8 * |userKey| >= bits
    requires length <= inp.Length && RoundUp(length) <= mid.Length && length <= out.Length
    modifies mid, out
    ensures out[..length] == old(inp[..length])
  {
    hide Expanded, IsInverseSchedule, KeyStates, CbcEncrypt, CbcDecrypt, EncryptIv, DecryptIv;
    var enc := new AesKey();
    var dec := new AesKey();
    var st := enc.SetEncryptKey(userKey, bits);
    ghost var ek;
    st, ek := dec.SetDecryptKey(userKey, bits);
    SameKeyStates(userKey, bits / 32, ek, enc.rdKey[..], enc.rounds);
    ghost var k, dk := enc.Schedule(), dec.Schedule();
    var ivec := new bv8[16](i requires 0 <= i < 16 => iv[i]);
    assert ivec[..] == iv;
    ghost var p := inp[..length];
    CbcCrypt(inp, mid, length, enc, ivec, true);
    ghost var c, whole := mid[..RoundUp(length)], mid[..];
    assert c <= whole;
    var ivec2 := new bv8[16](i requires 0 <= i < 16 => iv[i]);
    assert ivec2[..] == iv;
    CbcCrypt(mid, out, length, dec, ivec2, false);
    DecryptsPrefix(Dec(dk), iv, c, whole, length);
    RoundTripAes(k, dk, iv, p);
  }
}
