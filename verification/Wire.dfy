/** Byte-level primitives shared by the two migration streams: big-endian words as written by
    qemu_put_be64 and read back by qemu_get_be64, and tests of single-bit flags. */
module Wire {
  newtype byte = x: int | 0 <= x < 256

  datatype Option<+T> = None | Some(value: T)

  const TWO64: nat := 0x1_0000_0000_0000_0000

  function Pow256(k: nat): (p: nat)
    ensures p > 0
  {
    if k == 0 then 1 else 256 * Pow256(k - 1)
  }

  function Pow2(k: nat): (p: nat)
    ensures p > 0
  {
    if k == 0 then 1 else 2 * Pow2(k - 1)
  }

  /** The `k` low-order bytes of `n`, most significant first. */
  function BigEndian(n: nat, k: nat): (s: seq<byte>)
    ensures |s| == k
  {
    if k == 0 then [] else BigEndian(n / 256, k - 1) + [(n % 256) as byte]
  }

  function FromBigEndian(s: seq<byte>): nat {
    if s == [] then 0 else FromBigEndian(s[..|s| - 1]) * 256 + s[|s| - 1] as nat
  }

  function Be64(n: nat): (s: seq<byte>)
    ensures |s| == 8
  {
    BigEndian(n, 8)
  }

  lemma {:induction false} BigEndianRoundTrip(n: nat, k: nat)
    requires n < Pow256(k)
    ensures FromBigEndian(BigEndian(n, k)) == n
  {
    if k > 0 {
      BigEndianRoundTrip(n / 256, k - 1);
      var s := BigEndian(n, k);
      assert s[..|s| - 1] == BigEndian(n / 256, k - 1);
    }
  }

  /** Byte `i` from the front is the digit of weight `256^(k - 1 - i)`. */
  lemma {:induction false} BigEndianDigits(n: nat, k: nat, i: nat)
    requires i < k
    ensures BigEndian(n, k)[i] as nat == n / Pow256(k - 1 - i) % 256
  {
    if i < k - 1 {
      BigEndianDigits(n / 256, k - 1, i);
      DivTwice(n, Pow256(k - 2 - i));
    }
  }

  lemma DivTwice(n: nat, p: nat)
    requires p > 0
    ensures n / (256 * p) == n / 256 / p
  {
    var q := n / 256 / p;
    var r := n / 256 - q * p;
    assert 256 * (q * p) <= n < 256 * (q * p) + 256 * r + 256;
    assert 256 * (q * p) == q * (256 * p) && 256 * r + 256 <= 256 * p;
    QuotientIs(n, 256 * p, q);
  }

  /** Quotients are unique. */
  lemma QuotientIs(x: nat, a: nat, q: nat)
    requires a > 0 && q * a <= x < q * a + a
    ensures x / a == q
  {
    DivBounds(x, a);
    if x / a < q { MulMono(x / a + 1, q, a); } else if x / a > q { MulMono(q + 1, x / a, a); }
  }

  lemma DivBounds(x: nat, a: nat)
    requires a > 0
    ensures x / a * a <= x < x / a * a + a && x == x / a * a + x % a
  {
  }

  lemma MulMono(p: int, q: int, a: nat)
    requires p <= q
    ensures p * a <= q * a
  {
  }

  lemma Be64RoundTrip(n: nat)
    requires n < TWO64
    ensures FromBigEndian(Be64(n)) == n
  {
    assert Pow256(8) == TWO64 by {
      assert Pow256(2) == 0x1_0000;
      assert Pow256(4) == 0x1_0000_0000;
      assert Pow256(6) == 0x1_0000_0000_0000;
    }
    BigEndianRoundTrip(n, 8);
  }

  /** A name behind its length. */
  function EncodeId(id: seq<byte>): seq<byte> {
    [(|id| % 256) as byte] + id
  }

  /** `flags & bit` for a `bit` that is a power of two. */
  predicate HasFlag(flags: nat, bit: nat)
    requires bit > 0
  {
    flags / bit % 2 == 1
  }
}
