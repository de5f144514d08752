/** Word-based bitmaps: searches for set and clear bits, range updates, and the search for an aligned clear
    area. An `unsigned long` is given by its 64 bits, least significant first. */
module Bitmap {
  import Wire

  type Word = w: seq<bool> | |w| == 64 witness seq(64, _ => false)

  function And(v: Word, u: Word): Word { seq(64, i requires 0 <= i < 64 => v[i] && u[i]) }

  function Or(v: Word, u: Word): Word { seq(64, i requires 0 <= i < 64 => v[i] || u[i]) }

  function Not(v: Word): Word { seq(64, i requires 0 <= i < 64 => !v[i]) }

  function ShiftLeft(v: Word, k: nat): Word { seq(64, i requires 0 <= i < 64 => i >= k && v[i - k]) }

  function ShiftRight(v: Word, k: nat): Word { seq(64, i requires 0 <= i < 64 => i + k < 64 && v[i + k]) }

  const ALL: Word := seq(64, _ => true)
  const ZERO: Word := seq(64, _ => false)

  /** The constant whose `n` low bits are set. */
  function Low(n: nat): Word { seq(64, i => i < n) }

  /** Bit `n` of the map. */
  predicate Test(map_: seq<Word>, n: nat)
    requires n < 64 * |map_|
  {
    map_[n / 64][n % 64]
  }

  // ---------------------------------------------------------------------------------------------
  // One word

  /** The lowest set bit of `v` is `b`. */
  predicate IsFirst(v: Word, b: nat) { b < 64 && v[b] && forall i :: 0 <= i < b ==> !v[i] }

  predicate IsLast(v: Word, b: nat) { b < 64 && v[b] && forall i :: b < i < 64 ==> !v[i] }

  /** The lowest set bit lies among the `k` bits from `num` on, which `word` holds lowest. */
  ghost predicate LowLeft(v: Word, num: nat, word: Word, k: nat) {
    && num + k <= 64 && word == ShiftRight(v, num)
    && (forall i :: 0 <= i < num ==> !v[i])
    && (exists i :: num <= i < num + k && v[i])
  }

  /** One step of the binary search: if the low half is clear, drop it. */
  method DropLow(v: Word, num: nat, word: Word, k: nat) returns (num': nat, word': Word)
    requires k > 0 && LowLeft(v, num, word, 2 * k)
    ensures LowLeft(v, num', word', k)
  {
    num', word' := num, word;
    var low := And(word, Low(k));
    if low == ZERO {
      forall i | num <= i < num + k ensures !v[i] {
        assert low[i - num] == ZERO[i - num];
      }
      num', word' := num + k, ShiftRight(word, k);
      assert word' == ShiftRight(v, num');
    } else {
      var j :| 0 <= j < 64 && low[j] != ZERO[j];
      assert v[num + j];
    }
  }

  lemma SomeBit(v: Word)
    requires v != ZERO
    ensures LowLeft(v, 0, v, 64) && HighLeft(v, 63, v, 64)
  {
    assert ShiftRight(v, 0) == v && ShiftLeft(v, 0) == v;
    var i :| 0 <= i < 64 && v[i] != ZERO[i];
  }

  lemma FirstFound(v: Word, num: nat, word: Word)
    requires LowLeft(v, num, word, 1)
    ensures IsFirst(v, num)
  {
  }

  /** `bitops_ffsl` */
  method FindFirstSet(v: Word) returns (num: nat)
    requires v != ZERO
    ensures IsFirst(v, num)
  {
    hide LowLeft, HighLeft, IsFirst;
    SomeBit(v);
    var word;
    num, word := DropLow(v, 0, v, 32);
    num, word := DropLow(v, num, word, 16);
    num, word := DropLow(v, num, word, 8);
    num, word := DropLow(v, num, word, 4);
    num, word := DropLow(v, num, word, 2);
    num, word := DropLow(v, num, word, 1);
    FirstFound(v, num, word);
  }

  /** The highest set bit lies among the `k` bits up to `num`, which `word` holds highest. */
  ghost predicate HighLeft(v: Word, num: nat, word: Word, k: nat) {
    && k <= num + 1 <= 64 && word == ShiftLeft(v, 63 - num)
    && (forall i :: num < i < 64 ==> !v[i])
    && (exists i :: num - k < i <= num && v[i])
  }

  /** One step from the other end: if the high half is clear, drop it. */
  method DropHigh(v: Word, num: nat, word: Word, k: nat) returns (num': nat, word': Word)
    requires k > 0 && HighLeft(v, num, word, 2 * k)
    ensures HighLeft(v, num', word', k)
  {
    num', word' := num, word;
    var high := And(word, ShiftLeft(ALL, 64 - k));
    if high == ZERO {
      forall i | num - k < i <= num ensures !v[i] {
        assert high[i + 63 - num] == ZERO[i + 63 - num];
      }
      num', word' := num - k, ShiftLeft(word, k);
      assert word' == ShiftLeft(v, 63 - num');
    } else {
      var j :| 0 <= j < 64 && high[j] != ZERO[j];
      assert v[j - (63 - num)];
    }
  }

  lemma LastFound(v: Word, num: nat, word: Word)
    requires HighLeft(v, num, word, 1)
    ensures IsLast(v, num)
  {
  }

  /** `bitops_flsl` */
  method FindLastSet(v: Word) returns (num: nat)
    requires v != ZERO
    ensures IsLast(v, num)
  {
    hide LowLeft, HighLeft, IsLast;
    SomeBit(v);
    var word;
    num, word := DropHigh(v, 63, v, 32);
    num, word := DropHigh(v, num, word, 16);
    num, word := DropHigh(v, num, word, 8);
    num, word := DropHigh(v, num, word, 4);
    num, word := DropHigh(v, num, word, 2);
    num, word := DropHigh(v, num, word, 1);
    LastFound(v, num, word);
  }

  // ---------------------------------------------------------------------------------------------
  // Searches

  /** No bit of [lo, hi) has value `b`. */
  ghost predicate None(m: seq<Word>, lo: nat, hi: nat, b: bool)
    requires hi <= 64 * |m|
  {
    forall n :: lo <= n < hi ==> Test(m, n) != b
  }

  /** `r` is the least bit from `offset` on whose value is `b`, or `size` if there is none below it. */
  ghost predicate IsNext(m: seq<Word>, size: nat, offset: nat, b: bool, r: nat)
    requires size <= 64 * |m|
  {
    if offset >= size then r == size
    else offset <= r <= size && None(m, offset, r, b) && (r < size ==> Test(m, r) == b)
  }

  lemma BitOf(w: nat, j: nat)
    requires j < 64
    ensures (64 * w + j) / 64 == w && (64 * w + j) % 64 == j
  {
  }

  /** `v` marks the bits of word `w` from `lo` to `hi` that have value `b`. */
  ghost predicate Marks(m: seq<Word>, w: nat, lo: nat, hi: nat, b: bool, v: Word)
    requires w < |m|
  {
    hi <= 64 && forall j :: 0 <= j < 64 ==> (v[j] <==> m[w][j] == b && lo <= j < hi)
  }

  lemma Miss(m: seq<Word>, w: nat, lo: nat, hi: nat, b: bool, v: Word)
    requires w < |m| && Marks(m, w, lo, hi, b, v) && v == ZERO
    ensures None(m, 64 * w + lo, 64 * w + hi, b)
  {
    forall n | 64 * w + lo <= n < 64 * w + hi ensures Test(m, n) != b {
      BitOf(w, n - 64 * w);
      assert v[n - 64 * w] == ZERO[n - 64 * w];
    }
  }

  lemma Found(m: seq<Word>, w: nat, lo: nat, hi: nat, b: bool, v: Word, f: nat)
    requires w < |m| && Marks(m, w, lo, hi, b, v) && IsFirst(v, f)
    ensures lo <= f < hi && Test(m, 64 * w + f) == b && None(m, 64 * w + lo, 64 * w + f, b)
  {
    BitOf(w, f);
    forall n | 64 * w + lo <= n < 64 * w + f ensures Test(m, n) != b {
      BitOf(w, n - 64 * w);
    }
  }

  /** The common end of the two searches: word `w` is the last, `left` of its bits count, those below `lo`
      have been masked out of `v` already, and bits up to there do not have the value looked for. */
  method SearchLast(m: seq<Word>, size: nat, offset: nat, b: bool, w: nat, lo: nat, left: nat, v: Word) returns (r: nat)
    requires size <= 64 * |m| && w < |m| && 64 * w + left == size && lo < left <= 64
    requires offset < size && offset <= 64 * w + lo && None(m, offset, 64 * w + lo, b)
    requires Marks(m, w, lo, left, b, v)
    ensures IsNext(m, size, offset, b, r)
  {
    hide Marks, IsFirst, Test;
    if v == ZERO {
      Miss(m, w, lo, left, b, v);
      return size;
    }
    var f := FindFirstSet(v);
    Found(m, w, lo, left, b, v, f);
    return 64 * w + f;
  }

  lemma Joined(m: seq<Word>, a: nat, c: nat, d: nat, b: bool)
    requires a <= c <= d <= 64 * |m| && None(m, a, c, b) && None(m, c, d, b)
    ensures None(m, a, d, b)
  {
  }

  /** `find_next_bit` */
  method FindNextBit(m: seq<Word>, size: nat, offset: nat) returns (r: nat)
    requires size <= 64 * |m|
    ensures IsNext(m, size, offset, true, r)
  {
    hide Test, Marks, IsFirst;
    if offset >= size {
      return size;
    }
    var p, result := offset / 64, offset - offset % 64;
    var left, off := size - result, offset % 64;
    if off != 0 {
      var tmp := And(m[p], ShiftLeft(ALL, off));
      MaskedAbove(m, p, off, true, tmp);
      if left < 64 {
        tmp := And(tmp, ShiftRight(ALL, 64 - left));
        MaskedBetween(m, p, off, left, true, tmp);
        r := SearchLast(m, size, offset, true, p, off, left, tmp);
        return;
      }
      if tmp != ZERO {
        var f := FindFirstSet(tmp);
        Found(m, p, off, 64, true, tmp, f);
        return result + f;
      }
      Miss(m, p, off, 64, true, tmp);
      p, left, result := p + 1, left - 64, result + 64;
    }
    while left >= 64
      invariant result == 64 * p && result + left == size && offset <= result && left >= 0
      invariant None(m, offset, result, true)
    {
      var tmp := m[p];
      WholeWord(m, p, true, tmp);
      if tmp != ZERO {
        var f := FindFirstSet(tmp);
        Found(m, p, 0, 64, true, tmp, f);
        Joined(m, offset, result, result + f, true);
        return result + f;
      }
      Miss(m, p, 0, 64, true, tmp);
      Joined(m, offset, result, result + 64, true);
      p, left, result := p + 1, left - 64, result + 64;
    }
    if left == 0 {
      return result;
    }
    var tmp := And(m[p], ShiftRight(ALL, 64 - left));
    MaskedBetween(m, p, 0, left, true, tmp);
    r := SearchLast(m, size, offset, true, p, 0, left, tmp);
  }

  /** `find_next_zero_bit` */
  method FindNextZeroBit(m: seq<Word>, size: nat, offset: nat) returns (r: nat)
    requires size <= 64 * |m|
    ensures IsNext(m, size, offset, false, r)
  {
    hide Test, Marks, IsFirst;
    if offset >= size {
      return size;
    }
    var p, result := offset / 64, offset - offset % 64;
    var left, off := size - result, offset % 64;
    if off != 0 {
      var tmp := Or(m[p], ShiftRight(ALL, 64 - off));
      MaskedAbove(m, p, off, false, Not(tmp));
      if left < 64 {
        tmp := Or(tmp, ShiftLeft(ALL, left));
        MaskedBetween(m, p, off, left, false, Not(tmp));
        r := SearchLast(m, size, offset, false, p, off, left, Not(tmp));
        return;
      }
      if Not(tmp) != ZERO {
        var f := FindFirstSet(Not(tmp));
        Found(m, p, off, 64, false, Not(tmp), f);
        return result + f;
      }
      Miss(m, p, off, 64, false, Not(tmp));
      p, left, result := p + 1, left - 64, result + 64;
    }
    while left >= 64
      invariant result == 64 * p && result + left == size && offset <= result && left >= 0
      invariant None(m, offset, result, false)
    {
      var tmp := m[p];
      WholeWord(m, p, false, Not(tmp));
      if Not(tmp) != ZERO {
        var f := FindFirstSet(Not(tmp));
        Found(m, p, 0, 64, false, Not(tmp), f);
        Joined(m, offset, result, result + f, false);
        return result + f;
      }
      Miss(m, p, 0, 64, false, Not(tmp));
      Joined(m, offset, result, result + 64, false);
      p, left, result := p + 1, left - 64, result + 64;
    }
    if left == 0 {
      return result;
    }
    var tmp := Or(m[p], ShiftLeft(ALL, left));
    MaskedBetween(m, p, 0, left, false, Not(tmp));
    r := SearchLast(m, size, offset, false, p, 0, left, Not(tmp));
  }

  lemma FoundFromTop(m: seq<Word>, w: nat, hi: nat, v: Word, f: nat)
    requires w < |m| && Marks(m, w, 0, hi, true, v) && IsLast(v, f)
    ensures f < hi && Test(m, 64 * w + f) && None(m, 64 * w + f + 1, 64 * w + hi, true)
  {
    BitOf(w, f);
    forall n | 64 * w + f < n < 64 * w + hi ensures !Test(m, n) {
      BitOf(w, n - 64 * w);
    }
  }

  /** `find_last_bit`: the greatest set bit below `size`, or `size`. */
  method FindLastBit(m: seq<Word>, size: nat) returns (r: nat)
    requires size <= 64 * |m|
    ensures r <= size
    ensures r < size ==> Test(m, r) && None(m, r + 1, size, true)
    ensures r == size ==> None(m, 0, size, true)
  {
    hide Test, Marks, IsLast;
    var words: nat, part := size / 64, size % 64;
    if part != 0 {
      var tmp := And(m[words], ShiftRight(ALL, 64 - part));
      MaskedBetween(m, words, 0, part, true, tmp);
      if tmp != ZERO {
        var f := FindLastSet(tmp);
        FoundFromTop(m, words, part, tmp, f);
        return words * 64 + f;
      }
      Miss(m, words, 0, part, true, tmp);
    }
    while words > 0
      invariant 64 * words <= size && None(m, 64 * words, size, true)
    {
      words := words - 1;
      var tmp := m[words];
      WholeWord(m, words, true, tmp);
      if tmp != ZERO {
        var f := FindLastSet(tmp);
        FoundFromTop(m, words, 64, tmp, f);
        Joined(m, 64 * words + f + 1, 64 * words + 64, size, true);
        return words * 64 + f;
      }
      Miss(m, words, 0, 64, true, tmp);
      Joined(m, 64 * words, 64 * words + 64, size, true);
    }
    return size;
  }

  // ---------------------------------------------------------------------------------------------
  // Range updates

  /** `m'` is `m` with the bits of [lo, hi) set to `b`. */
  ghost predicate Filled(m: seq<Word>, lo: nat, hi: nat, b: bool, m': seq<Word>) {
    |m'| == |m| && forall n :: 0 <= n < 64 * |m| ==> Test(m', n) == if lo <= n < hi then b else Test(m, n)
  }

  function Masked(v: Word, mask: Word, b: bool): Word {
    if b then Or(v, mask) else And(v, Not(mask))
  }

  lemma FillWord(m: seq<Word>, lo: nat, pos: nat, hi: nat, b: bool, m1: seq<Word>, mask: Word)
    requires Filled(m, lo, pos, b, m1) && lo <= pos < hi <= 64 * |m| && hi <= 64 * (pos / 64) + 64
    requires forall j :: 0 <= j < 64 ==> (mask[j] <==> pos <= 64 * (pos / 64) + j < hi)
    ensures Filled(m, lo, hi, b, m1[pos / 64 := Masked(m1[pos / 64], mask, b)])
  {
    var w := pos / 64;
    var m2 := m1[w := Masked(m1[w], mask, b)];
    forall n | 0 <= n < 64 * |m| ensures Test(m2, n) == if lo <= n < hi then b else Test(m, n) {
      assert Test(m1, n) == if lo <= n < pos then b else Test(m, n);
      assert n == 64 * (n / 64) + n % 64;
      if n / 64 == w {
        MaskedAt(m1[w], mask, b, n % 64);
        assert mask[n % 64] <==> pos <= n < hi;
      }
    }
  }

  lemma MaskedAt(v: Word, mask: Word, b: bool, j: nat)
    requires j < 64
    ensures Masked(v, mask, b)[j] == if mask[j] then b else v[j]
  {
  }

  /** `bitmap_set` (`b` true) and `bitmap_clear` (`b` false): exactly the requested bits change. */
  method Fill(m: array<Word>, start: nat, nr: nat, b: bool)
    requires start + nr <= 64 * m.Length
    modifies m
    ensures Filled(old(m[..]), start, start + nr, b, m[..])
  {
    hide Filled, Test, Masked;
    var p, left, size := start / 64, nr, start + nr;
    var bits, mask := 64 - start % 64, ShiftLeft(ALL, start % 64);
    ghost var m0, pos := m[..], start;
    assert Filled(m0, start, start, b, m0) by { FilledNothing(m0, start, b); }
    while left >= bits
      invariant left >= 0 && pos + left == size && pos >= start && p == pos / 64 && bits == 64 - pos % 64
      invariant mask == ShiftLeft(ALL, pos % 64)
      invariant Filled(m0, start, pos, b, m[..])
      decreases left
    {
      FillWord(m0, start, pos, pos + bits, b, m[..], mask);
      m[p] := Masked(m[p], mask, b);
      left, pos := left - bits, pos + bits;
      bits, mask, p := 64, ALL, p + 1;
      assert ShiftLeft(ALL, 0) == ALL;
    }
    if left > 0 {
      var last := size % 64;
      if last != 0 {
        mask := And(mask, Low(last));
      }
      FillWord(m0, start, pos, size, b, m[..], mask);
      m[p] := Masked(m[p], mask, b);
    }
  }

  lemma FilledNothing(m: seq<Word>, lo: nat, b: bool)
    ensures Filled(m, lo, lo, b, m)
  {
  }

  // ---------------------------------------------------------------------------------------------
  // Aligned areas

  /** `nr` clear bits from `index` on, within the map. */
  ghost predicate Free(m: seq<Word>, size: nat, index: nat, nr: nat)
    requires size <= 64 * |m|
  {
    index + nr <= size && None(m, index, index + nr, true)
  }

  /** `ALIGN_MASK`, for a mask one below `align`; see `AlignMask`. */
  function AlignUp(x: nat, align: nat): nat
    requires align > 0
  {
    RoundDown(x + (align - 1), align)
  }

  lemma AlignUpIsLeast(x: nat, align: nat, y: nat)
    requires align > 0
    ensures AlignUp(x, align) >= x && AlignUp(x, align) % align == 0
    ensures y % align == 0 && y >= x ==> y >= AlignUp(x, align)
  {
    var q := (x + (align - 1)) / align;
    Wire.DivBounds(x + (align - 1), align);
    ProductMod(q, align);
    if y % align == 0 && y >= x && y < q * align {
      Wire.DivBounds(y, align);
      if y / align >= q { Wire.MulMono(q, y / align, align); } else { Wire.MulMono(y / align + 1, q, align); }
      assert false;
    }
  }

  lemma AlignUpAdds(x: nat, align: nat)
    requires align > 0
    ensures AlignUp(x, align) <= x + (align - 1)
  {
    Wire.DivBounds(x + (align - 1), align);
  }

  lemma ProductMod(q: nat, a: nat)
    requires a > 0
    ensures q * a % a == 0
  {
    if q > 0 { ProductMod(q - 1, a); ModAdd((q - 1) * a, a); assert q * a == (q - 1) * a + a; }
  }

  lemma ModAdd(x: nat, a: nat)
    requires a > 0
    ensures (x + a) % a == x % a
  {
    Wire.DivBounds(x, a);
    Wire.DivBounds(x + a, a);
    var d := (x + a) / a - x / a;
    assert (x + a) / a * a == x / a * a + d * a;
    if d < 1 { Wire.MulMono(d, 0, a); } else if d > 1 { Wire.MulMono(2, d, a); }
  }

  /** The number whose bits these are, least significant first. */
  function Value(s: seq<bool>): nat {
    if s == [] then 0 else (if s[0] then 1 else 0) + 2 * Value(s[1..])
  }

  lemma {:induction false} LowValue(n: nat, k: nat)
    requires k <= n
    ensures Value(seq(n, i => i < k)) == Wire.Pow2(k) - 1
  {
    var s := seq(n, i => i < k);
    if n > 0 && k > 0 {
      LowValue(n - 1, k - 1);
      assert s[1..] == seq(n - 1, i => i < k - 1);
    } else if n > 0 {
      LowValue(n - 1, 0);
      assert s[1..] == seq(n - 1, i => i < 0);
    }
  }

  function RoundDown(n: nat, a: nat): nat
    requires a > 0
  {
    n / a * a
  }

  lemma Doubled(q: int, a: int)
    ensures q * (2 * a) == 2 * (q * a)
  {
  }

  lemma HalveBoth(n: nat, b: nat, a: nat)
    requires a > 0 && b < 2
    ensures RoundDown(b + 2 * n, 2 * a) == 2 * RoundDown(n, a)
  {
    var q := n / a;
    Wire.DivBounds(n, a);
    Doubled(q, a);
    Wire.QuotientIs(b + 2 * n, 2 * a, q);
  }

  lemma RoundToOne(n: nat)
    ensures RoundDown(n, 1) == n
  {
  }

  /** Clearing the `k` low bits rounds down to a multiple of the `k`-th power of two. */
  lemma {:induction false} ClearedValue(s: seq<bool>, k: nat)
    requires k <= |s|
    ensures Value(seq(|s|, i requires 0 <= i < |s| => i >= k && s[i])) == RoundDown(Value(s), Wire.Pow2(k))
  {
    hide RoundDown;
    var c := seq(|s|, i requires 0 <= i < |s| => i >= k && s[i]);
    if k == 0 {
      assert c == s;
      RoundToOne(Value(s));
    } else {
      var rest, n := s[1..], Value(s[1..]);
      ClearedValue(rest, k - 1);
      assert c[1..] == seq(|rest|, i requires 0 <= i < |rest| => i >= k - 1 && rest[i]);
      HalveBoth(n, if s[0] then 1 else 0, Wire.Pow2(k - 1));
    }
  }

  /** Adding a mask of `k` ones and clearing them, as `ALIGN_MASK` does bit by bit, rounds up. */
  lemma AlignMask(x: nat, k: nat, sum: Word)
    requires k <= 64 && Value(sum) == x + Value(Low(k))
    ensures Value(And(sum, Not(Low(k)))) == AlignUp(x, Wire.Pow2(k))
  {
    LowValue(64, k);
    ClearedValue(sum, k);
    assert And(sum, Not(Low(k))) == seq(64, i requires 0 <= i < 64 => i >= k && sum[i]);
  }

  /** `bitmap_find_next_zero_area`: for at least one bit, the least aligned index from `start` on whose
      area is free, or a value above `size` exactly if there is none. Nothing computed exceeds the sum of
      size, mask and count, so nothing wraps if that sum fits in a word. */
  method FindNextZeroArea(m: seq<Word>, size: nat, start: nat, nr: nat, align: nat) returns (r: nat)
    requires size <= 64 * |m| && align > 0
    ensures nr > 0 && r <= size ==> r >= start && r % align == 0 && Free(m, size, r, nr)
    ensures nr > 0 ==> forall a :: start <= a < r && a % align == 0 ==> !Free(m, size, a, nr)
    ensures r <= size + (align - 1) + nr
  {
    hide Test, AlignUp;
    var from := start;
    while true
      invariant from >= start
      invariant nr > 0 ==> forall a :: start <= a < from && a % align == 0 ==> !Free(m, size, a, nr)
      decreases size - from
    {
      var zero := FindNextZeroBit(m, size, from);
      var index := AlignUp(zero, align);
      AlignUpIsLeast(zero, align, zero);
      AlignUpAdds(zero, align);
      if nr > 0 {
        forall a | start <= a < index && a % align == 0 ensures !Free(m, size, a, nr) {
          if a >= from { SkipsNoArea(m, size, from, zero, nr, align, a); }
        }
      }
      var end := index + nr;
      if end > size {
        return end;
      }
      var i := FindNextBit(m, end, index);
      if i >= end {
        return index;
      }
      assert Test(m, i);
      from := i + 1;
    }
  }

  /** No free area starts below the next clear bit, rounded up. */
  lemma SkipsNoArea(m: seq<Word>, size: nat, from: nat, zero: nat, nr: nat, align: nat, a: nat)
    requires size <= 64 * |m| && nr > 0 && align > 0 && IsNext(m, size, from, false, zero)
    requires a % align == 0 && a < AlignUp(zero, align) && a >= from
    ensures !Free(m, size, a, nr)
  {
    hide Test, AlignUp;
    AlignUpIsLeast(zero, align, a);
    if a < size { assert Test(m, a); }
  }

  lemma WholeWord(m: seq<Word>, w: nat, b: bool, v: Word)
    requires w < |m| && v == if b then m[w] else Not(m[w])
    ensures Marks(m, w, 0, 64, b, v)
  {
  }

  lemma MaskedAbove(m: seq<Word>, w: nat, lo: nat, b: bool, v: Word)
    requires w < |m| && 0 < lo < 64
    requires v == if b then And(m[w], ShiftLeft(ALL, lo)) else Not(Or(m[w], ShiftRight(ALL, 64 - lo)))
    ensures Marks(m, w, lo, 64, b, v)
  {
    forall j | 0 <= j < 64 ensures v[j] <==> m[w][j] == b && lo <= j < 64 {}
  }

  lemma MaskedBetween(m: seq<Word>, w: nat, lo: nat, hi: nat, b: bool, v: Word)
    requires w < |m| && lo < hi < 64
    requires v ==
      if b then And(if lo == 0 then m[w] else And(m[w], ShiftLeft(ALL, lo)), ShiftRight(ALL, 64 - hi))
      else Not(Or(if lo == 0 then m[w] else Or(m[w], ShiftRight(ALL, 64 - lo)), ShiftLeft(ALL, hi)))
    ensures Marks(m, w, lo, hi, b, v)
  {
    forall j | 0 <= j < 64 ensures v[j] <==> m[w][j] == b && lo <= j < hi {}
  }
}
