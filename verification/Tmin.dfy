/** The test case minimiser: block normalisation, then passes of block deletion, alphabet and character
    minimisation until a pass has nothing left to delete. The target is a deterministic oracle that says
    whether a candidate still behaves like the original. */
module Tmin {
  import opened Wire

  const TMIN_SET_MIN_SIZE: nat := 4
  const TMIN_SET_STEPS: nat := 128
  const TRIM_START_STEPS: nat := 16
  const ZERO: byte := 48

  type File = seq<byte>
  type Oracle = File -> bool

  // ---------------------------------------------------------------------------------------------
  // Specification

  /** How far a file is from empty: its length, plus its bytes that are not '0'. */
  function Weight(s: File): nat {
    if s == [] then 0 else 1 + (if s[0] == ZERO then 0 else 1) + Weight(s[1..])
  }

  /** `r` comes from `s` by deleting bytes and overwriting others with '0'. */
  ghost predicate Simpler(s: File, r: File) {
    if r == [] then true
    else
      && s != []
      && (((r[0] == s[0] || r[0] == ZERO) && Simpler(s[1..], r[1..])) || Simpler(s[1..], r))
  }

  function Without(s: File, pos: nat, len: nat): (r: File)
    requires pos <= |s|
  {
    if pos + len <= |s| then s[..pos] + s[pos + len..] else s[..pos]
  }

  /** No single byte can be deleted without the oracle rejecting the file. */
  ghost predicate OneMinimal(f: Oracle, s: File) {
    forall p :: 0 <= p < |s| ==> !f(Without(s, p, 1))
  }

  function Zeroed(s: File, pos: nat, len: nat): (r: File)
    requires pos + len <= |s|
  {
    s[..pos] + seq(len, _ => ZERO) + s[pos + len..]
  }

  function WithoutSymbol(s: File, b: byte): (r: File)
    ensures |r| == |s|
    ensures forall i :: 0 <= i < |s| ==> r[i] == if s[i] == b then ZERO else s[i]
  {
    seq(|s|, i requires 0 <= i < |s| => if s[i] == b then ZERO else s[i])
  }

  lemma {:induction false} WeightAppend(a: File, b: File)
    ensures Weight(a + b) == Weight(a) + Weight(b)
  {
    if a == [] {
      assert a + b == b;
    } else {
      assert (a + b)[1..] == a[1..] + b;
      WeightAppend(a[1..], b);
    }
  }

  lemma {:induction false} WeightBounds(s: File)
    ensures |s| <= Weight(s) <= 2 * |s|
    ensures Weight(s) == |s| <==> forall i :: 0 <= i < |s| ==> s[i] == ZERO
  {
    if s != [] {
      WeightBounds(s[1..]);
      assert forall i :: 0 < i < |s| ==> s[i] == s[1..][i - 1];
    }
  }

  /** Overwriting bytes with '0' lightens the file exactly if one of them was not '0'. */
  lemma {:induction false} ZeroingWeighs(s: File, r: File)
    requires |r| == |s| && forall i :: 0 <= i < |s| ==> r[i] == s[i] || r[i] == ZERO
    ensures Simpler(s, r) && Weight(r) <= Weight(s)
    ensures r != s ==> Weight(r) < Weight(s)
  {
    if s != [] {
      TailsMatch(s, r);
      ZeroingWeighs(s[1..], r[1..]);
    }
  }

  lemma TailsMatch(s: File, r: File)
    requires |r| == |s| > 0 && forall i :: 0 <= i < |s| ==> r[i] == s[i] || r[i] == ZERO
    ensures forall i :: 0 <= i < |s| - 1 ==> r[1..][i] == s[1..][i] || r[1..][i] == ZERO
    ensures r[0] == s[0] && r[1..] == s[1..] ==> r == s
  {
    assert s == [s[0]] + s[1..] && r == [r[0]] + r[1..];
    forall i | 0 <= i < |s| - 1 ensures r[1..][i] == s[1..][i] || r[1..][i] == ZERO {
      assert r[1..][i] == r[i + 1] && s[1..][i] == s[i + 1];
    }
  }

  lemma DeletionWeighs(s: File, pos: nat, len: nat)
    requires pos < |s| && len > 0
    ensures Weight(Without(s, pos, len)) < Weight(s)
  {
    hide Weight;
    var end := if pos + len <= |s| then pos + len else |s|;
    ThreeParts(s, pos, end);
    WeightAppend(s[..pos] + s[pos..end], s[end..]);
    WeightAppend(s[..pos], s[pos..end]);
    WeightAppend(s[..pos], s[end..]);
    WeightBounds(s[pos..end]);
    assert Without(s, pos, len) == s[..pos] + s[end..];
  }

  lemma ThreeParts<T>(s: seq<T>, p: nat, q: nat)
    requires p <= q <= |s|
    ensures s == s[..p] + s[p..q] + s[q..]
  {
  }

  lemma {:induction false} SimplerRefl(s: File)
    ensures Simpler(s, s)
  {
    if s != [] { SimplerRefl(s[1..]); }
  }

  lemma {:induction false} SimplerTrans(a: File, b: File, c: File)
    requires Simpler(a, b) && Simpler(b, c)
    ensures Simpler(a, c)
    decreases |a|
  {
    if c != [] && b != [] {
      if !((b[0] == a[0] || b[0] == ZERO) && Simpler(a[1..], b[1..])) {
        SimplerTrans(a[1..], b, c);
      } else if (c[0] == b[0] || c[0] == ZERO) && Simpler(b[1..], c[1..]) {
        SimplerTrans(a[1..], b[1..], c[1..]);
      } else {
        SimplerTrans(a[1..], b[1..], c);
      }
    }
  }

  lemma {:induction false} SimplerSuffix(s: File, n: nat)
    requires n <= |s|
    ensures Simpler(s, s[n..])
  {
    if n == 0 {
      SimplerRefl(s);
    } else {
      SimplerSuffix(s[1..], n - 1);
      assert s[1..][n - 1..] == s[n..];
    }
  }

  lemma {:induction false} SimplerDeletion(s: File, pos: nat, len: nat)
    requires pos <= |s|
    ensures Simpler(s, Without(s, pos, len))
  {
    var r := Without(s, pos, len);
    if pos == 0 {
      var n := if len <= |s| then len else |s|;
      assert r == s[n..];
      SimplerSuffix(s, n);
    } else {
      SimplerDeletion(s[1..], pos - 1, len);
      assert r[0] == s[0] && r[1..] == Without(s[1..], pos - 1, len);
    }
  }

  /** Deleting either of two equal neighbours gives the same file, which is why the second of two equal
      blocks need not be tried. */
  lemma EqualNeighbours(s: File, pos: nat, len: nat)
    requires 0 < len <= pos && pos + len <= |s| && s[pos - len..pos] == s[pos..pos + len]
    ensures Without(s, pos - len, len) == Without(s, pos, len)
  {
    assert s[..pos] == s[..pos - len] + s[pos - len..pos];
    assert s[pos..] == s[pos..pos + len] + s[pos + len..];
  }

  /** Every block of `len` bytes that starts at a multiple of `len` below `end` is needed. */
  ghost predicate BlocksNeeded(f: Oracle, s: File, len: nat, end: nat)
    requires len > 0
  {
    if end == 0 then true
    else len <= end && end - len < |s| && !f(Without(s, end - len, len)) && BlocksNeeded(f, s, len, end - len)
  }

  lemma {:induction false} BytesNeeded(f: Oracle, s: File, end: nat, p: nat)
    requires BlocksNeeded(f, s, 1, end) && p < end
    ensures p < |s| && !f(Without(s, p, 1))
  {
    if p < end - 1 { BytesNeeded(f, s, end - 1, p); }
  }

  /** `len` bytes at `pos`, or what is left of the file. */
  function Room(s: File, pos: nat, len: nat): nat
    requires pos <= |s|
  {
    if len <= |s| - pos then len else |s| - pos
  }

  /** Every block of `len` bytes that starts at a multiple of `len` below `end` is '0' already, or must not
      become so. */
  ghost predicate BlocksKept(f: Oracle, s: File, len: nat, end: nat)
    requires len > 0
  {
    if end == 0 then true
    else
      && len <= end && end - len < |s|
      && (var z := Zeroed(s, end - len, Room(s, end - len, len)); z == s || !f(z))
      && BlocksKept(f, s, len, end - len)
  }

  // What each stage does, by itself

  /** Stage 0 from `a` to `d`, for the blocks below `end`: each is zeroed exactly if the oracle accepts that, with
      the blocks before it already dealt with. */
  ghost predicate BlocksSet(f: Oracle, a: File, d: File, len: nat, end: nat)
    requires len > 0
  {
    && |a| == |d|
    && if end == 0 then true
       else
         && len <= end && end - len < |a|
         && BlockSet(f, a, d, end - len, Room(a, end - len, len)) && BlocksSet(f, a, d, len, end - len)
  }

  ghost predicate BlockSet(f: Oracle, a: File, d: File, pos: nat, n: nat)
    requires pos + n <= |a| == |d|
  {
    d[pos..pos + n] == if f(Zeroed(d[..pos] + a[pos..], pos, n)) then seq(n, _ => ZERO) else a[pos..pos + n]
  }

  /** Stage 1 for one block length, trying every block: what is left once everything below `pos` was tried. */
  ghost function Deleted(f: Oracle, s: File, len: nat, pos: nat): File
    requires len > 0
    decreases if pos < |s| then |s| - pos else 0
  {
    if pos >= |s| then s
    else if f(Without(s, pos, len)) then Deleted(f, Without(s, pos, len), len, pos)
    else Deleted(f, s, len, pos + len)
  }

  /** Stage 1 for that block length, its half, and so on down to one byte. */
  ghost function DeletedFrom(f: Oracle, s: File, len: nat): File
    requires len > 0
    decreases len
  {
    var t := Deleted(f, s, len, 0);
    if len > 1 && |t| >= 1 then DeletedFrom(f, t, len / 2) else t
  }

  /** `a` with the symbols below `b` as in `d`. */
  function Mixed(a: File, d: File, b: byte): (r: File)
    requires |a| == |d|
    ensures |r| == |a|
  {
    seq(|a|, i requires 0 <= i < |a| => if a[i] < b then d[i] else a[i])
  }

  /** Stage 2 from `a` to `d`: each symbol is replaced exactly if the oracle accepts that, with the smaller symbols
      already dealt with. */
  ghost predicate SymbolsSet(f: Oracle, a: File, d: File) {
    && |a| == |d|
    && forall i :: 0 <= i < |a| ==>
         d[i] == if a[i] == ZERO || f(WithoutSymbol(Mixed(a, d, a[i]), a[i])) then ZERO else a[i]
  }

  /** Stage 3 from `a` to `d`: each byte is replaced exactly if the oracle accepts that, with the bytes before it
      already dealt with. */
  ghost predicate BytesSet(f: Oracle, a: File, d: File) {
    && |a| == |d|
    && forall i :: 0 <= i < |a| ==> d[i] == if a[i] == ZERO || f((d[..i] + a[i..])[i := ZERO]) then ZERO else a[i]
  }

  /** The least power of two not below `val`. */
  function LeastPower(val: nat): (p: nat)
    ensures p > 0 && p >= val && PowerOfTwo(p)
  {
    if val <= 1 then 1 else 2 * LeastPower((val + 1) / 2)
  }

  /** At most `n` passes over stages 1 to 3 lead from `s` to `r`: they end when a pass changes nothing, and from the
      second pass on as soon as nothing can be deleted. */
  ghost predicate Passes(f: Oracle, s: File, first: bool, n: nat, r: File)
    decreases n, 1
  {
    && n > 0
    && var d := DeletedFrom(f, s, LeastPower(|s| / TRIM_START_STEPS));
       if !first && d == s then r == s else exists a, c :: PassEnds(f, s, d, a, c, n, r)
  }

  ghost predicate PassEnds(f: Oracle, s: File, d: File, a: File, c: File, n: nat, r: File)
    requires n > 0
    decreases n, 0
  {
    SymbolsSet(f, d, a) && BytesSet(f, a, c) && if c == s then r == s else n > 1 && Passes(f, c, false, n - 1, r)
  }

  // ---------------------------------------------------------------------------------------------
  // The minimiser

  /** Least power of two not below `val`. */
  method NextP2(val: nat) returns (ret: nat)
    ensures ret >= val && ret >= 1 && (ret > 1 ==> ret / 2 < val) && PowerOfTwo(ret)
    ensures ret == LeastPower(val)
  {
    ret := 1;
    while val > ret
      invariant ret >= 1 && (ret > 1 ==> ret / 2 < val) && PowerOfTwo(ret)
      decreases 2 * val - ret
    {
      ret := ret * 2;
    }
    LeastIs(val, ret);
  }

  lemma {:induction false} LeastIs(val: nat, p: nat)
    requires p >= val && p >= 1 && (p > 1 ==> p / 2 < val) && PowerOfTwo(p)
    ensures p == LeastPower(val)
  {
    if val > 1 { LeastIs((val + 1) / 2, p / 2); }
  }

  predicate PowerOfTwo(n: nat) {
    n == 1 || (n > 1 && n % 2 == 0 && PowerOfTwo(n / 2))
  }

  /** What every stage keeps: the oracle accepts the file, and it came from `s` by simplification. */
  ghost predicate Progress(f: Oracle, s: File, r: File) {
    f(r) && Simpler(s, r) && Weight(r) <= Weight(s) && (r != s ==> Weight(r) < Weight(s))
  }

  lemma ProgressTrans(f: Oracle, a: File, b: File, c: File)
    requires Progress(f, a, b) && Progress(f, b, c)
    ensures Progress(f, a, c)
  {
    SimplerTrans(a, b, c);
  }

  lemma ProgressRefl(f: Oracle, s: File)
    requires f(s)
    ensures Progress(f, s, s)
  {
    SimplerRefl(s);
  }

  class TestCase {
    const f: Oracle
    var data: File

    constructor (f: Oracle, data: File)
      ensures this.f == f && this.data == data
    {
      this.f, this.data := f, data;
    }

    /** Stage 0: blocks of the file, one after the other, are replaced by '0's where the oracle allows. */
    method NormalizeBlocks() returns (ghost len: nat, ghost end: nat)
      requires f(data)
      modifies this
      ensures Progress(f, old(data), data) && |data| == |old(data)|
      ensures len == Max(TMIN_SET_MIN_SIZE, LeastPower(|data| / TMIN_SET_STEPS)) && |data| <= end
      ensures BlocksSet(f, old(data), data, len, end)
      ensures data == old(data) ==> BlocksKept(f, data, len, end)
    {
      hide Weight, Simpler, Zeroed, BlocksSet, LeastPower;
      var setLen := NextP2(|data| / TMIN_SET_STEPS);
      if setLen < TMIN_SET_MIN_SIZE { setLen := TMIN_SET_MIN_SIZE; }
      var setPos := 0;
      ProgressRefl(f, data);
      NoBlocksSet(f, data, setLen);
      while setPos < |data|
        invariant setPos >= 0 && Progress(f, old(data), data) && |data| == |old(data)|
        invariant data == old(data) ==> BlocksKept(f, data, setLen, setPos)
        invariant BlocksSet(f, old(data), data, setLen, setPos)
        invariant setPos < |data| ==> data[setPos..] == old(data)[setPos..]
      {
        var useLen := Room(data, setPos, setLen);
        var tmp := Zeroed(data, setPos, useLen);
        assert data[..setPos] + old(data)[setPos..] == data;
        OneBlockSet(f, old(data), data, setLen, setPos, useLen);
        if tmp != data && f(tmp) {
          ZeroedBytes(data, setPos, useLen);
          ZeroingWeighs(data, tmp);
          ProgressTrans(f, old(data), data, tmp);
          data := tmp;
        }
        setPos := setPos + setLen;
      }
      len, end := setLen, setPos;
    }

    /** Stage 1 for one block length. The result is the same as if every block were tried, although blocks equal to
        the one before them are not. */
    method DeleteBlocks(delLen: nat) returns (changed: bool, ghost end: nat)
      requires f(data) && delLen > 0
      modifies this
      ensures Progress(f, old(data), data)
      ensures changed <==> data != old(data)
      ensures |data| <= end && (!changed ==> BlocksNeeded(f, data, delLen, end))
      ensures data == Deleted(f, old(data), delLen, 0)
    {
      hide Weight, Simpler, Without;
      changed := false;
      var delPos, prevDel := 0, true;
      ProgressRefl(f, data);
      while delPos < |data|
        invariant delPos >= 0 && Progress(f, old(data), data)
        invariant changed <==> data != old(data)
        invariant !prevDel ==> delLen <= delPos <= |data| + delLen && !f(Without(data, delPos - delLen, delLen))
        invariant !changed ==> BlocksNeeded(f, data, delLen, delPos)
        invariant Deleted(f, data, delLen, delPos) == Deleted(f, old(data), delLen, 0)
        decreases |data| - delPos
      {
        var tailLen := if delPos + delLen < |data| then |data| - delPos - delLen else 0;
        if !prevDel && tailLen > 0 && data[delPos - delLen..delPos] == data[delPos..delPos + delLen] {
          EqualNeighbours(data, delPos, delLen);
          delPos := delPos + delLen;
          continue;
        }
        prevDel := false;
        var tmp := Without(data, delPos, delLen);
        if f(tmp) {
          DeletionWeighs(data, delPos, delLen);
          SimplerDeletion(data, delPos, delLen);
          Shortened(data, delPos, delLen);
          ProgressTrans(f, old(data), data, tmp);
          data := tmp;
          prevDel, changed := true, true;
        } else {
          delPos := delPos + delLen;
        }
      }
      end := delPos;
    }

    /** Stage 1: block lengths from a sixteenth of the file down to one byte. */
    method DeleteAll() returns (changed: bool)
      requires f(data)
      modifies this
      ensures Progress(f, old(data), data)
      ensures changed <==> data != old(data)
      ensures !changed ==> OneMinimal(f, data)
      ensures data == DeletedFrom(f, old(data), LeastPower(|old(data)| / TRIM_START_STEPS))
    {
      hide Weight, Simpler, Without, BlocksNeeded, Deleted, LeastPower;
      var delLen := NextP2(|data| / TRIM_START_STEPS);
      ghost var whole := DeletedFrom(f, data, delLen);
      ghost var end;
      changed, end := DeleteBlocks(delLen);
      if delLen == 1 && !changed { AllBytesNeeded(f, data, end); }
      while delLen > 1 && |data| >= 1
        invariant PowerOfTwo(delLen) && Progress(f, old(data), data)
        invariant changed <==> data != old(data)
        invariant !changed && delLen == 1 ==> OneMinimal(f, data)
        invariant whole == if delLen > 1 && |data| >= 1 then DeletedFrom(f, data, delLen / 2) else data
        decreases delLen
      {
        delLen := delLen / 2;
        ghost var before := data;
        var more;
        more, end := DeleteBlocks(delLen);
        ProgressTrans(f, old(data), before, data);
        if delLen == 1 && !more { AllBytesNeeded(f, data, end); }
        changed := changed || more;
      }
    }

    /** Stage 2: each symbol that occurs is replaced by '0' everywhere, where the oracle allows. */
    method MinimizeAlphabet() returns (changed: bool)
      requires f(data)
      modifies this
      ensures Progress(f, old(data), data) && |data| == |old(data)|
      ensures changed <==> data != old(data)
      ensures !changed ==> forall b :: b in data && b != ZERO ==> !f(WithoutSymbol(data, b))
      ensures SymbolsSet(f, old(data), data)
    {
      hide Weight, Simpler, SymbolsBelow;
      changed := false;
      var symbols := data;
      NoSymbolsSet(f, data);
      ProgressRefl(f, data);
      var i := 0;
      while i < 256
        invariant 0 <= i <= 256
        invariant Progress(f, old(data), data) && |data| == |old(data)|
        invariant changed <==> data != old(data)
        invariant forall b: byte :: b as int >= i && b in symbols ==> b in data
        invariant !changed ==> forall b: byte :: b as int < i && b in data && b != ZERO ==> !f(WithoutSymbol(data, b))
        invariant !changed ==> data == symbols
        invariant SymbolsBelow(f, symbols, data, i)
      {
        var b := i as byte;
        OneSymbolSet(f, symbols, data, b);
        if b != ZERO && b in symbols {
          var tmp := WithoutSymbol(data, b);
          if f(tmp) {
            SymbolGone(data, b);
            ProgressTrans(f, old(data), data, tmp);
            data := tmp;
            changed := true;
          }
        }
        i := i + 1;
      }
      AllSymbolsSet(f, symbols, data);
    }

    /** Stage 3: each byte on its own is replaced by '0', where the oracle allows. */
    method MinimizeCharacters() returns (changed: bool)
      requires f(data)
      modifies this
      ensures Progress(f, old(data), data) && |data| == |old(data)|
      ensures changed <==> data != old(data)
      ensures !changed ==> forall i :: 0 <= i < |data| && data[i] != ZERO ==> !f(data[i := ZERO])
      ensures BytesSet(f, old(data), data)
    {
      hide Weight, Simpler, BytesBelow, BytesSet;
      NoBytesSet(f, data);
      changed := false;
      ProgressRefl(f, data);
      var i := 0;
      while i < |data|
        invariant 0 <= i <= |data| == |old(data)|
        invariant Progress(f, old(data), data)
        invariant changed <==> data != old(data)
        invariant !changed ==> forall k :: 0 <= k < i && data[k] != ZERO ==> !f(data[k := ZERO])
        invariant BytesBelow(f, old(data), data, i)
      {
        OneByteSet(f, old(data), data, i);
        if data[i] != ZERO {
          var tmp := data[i := ZERO];
          if f(tmp) {
            ZeroingWeighs(data, tmp);
            ProgressTrans(f, old(data), data, tmp);
            data := tmp;
            changed := true;
          }
        }
        i := i + 1;
      }
      AllBytesSet(f, old(data), data);
    }

    /** Whole minimisation. It ends for every file and every oracle; the oracle accepts the result, which
        comes from the original by deletions and '0's alone, and from which no byte can be deleted. */
    method Minimize()
      requires f(data)
      modifies this
      ensures f(data) && Simpler(old(data), data) && Weight(data) <= Weight(old(data))
      ensures OneMinimal(f, data)
      ensures exists s, len: nat, end: nat, n: nat :: Minimized(f, old(data), s, len, end, n, data)
    {
      hide Weight, Simpler, OneMinimal, BlocksSet, SymbolsSet, BytesSet, Passes, LeastPower;
      ghost var len, end := NormalizeBlocks();
      ghost var s, first := data, true;
      var curPass, again := 0, true;
      while again
        invariant Progress(f, old(data), data) && curPass >= 0
        invariant !again ==> OneMinimal(f, data) && Passes(f, s, true, curPass, data)
        invariant first == (curPass == 0)
        invariant again ==> forall n: nat, r :: Passes(f, data, first, n, r) ==> Passes(f, s, true, n + curPass, r)
        decreases Weight(data), again
      {
        curPass := curPass + 1;
        ghost var d0 := data;
        var changed := DeleteAll();
        ProgressTrans(f, old(data), d0, data);
        if curPass > 1 && !changed {
          LastPass(f, d0);
          assert Minimized(f, old(data), s, len, end, 1 + (curPass - 1), data);
          return;
        }
        ghost var d1 := data;
        var symbols := MinimizeAlphabet();
        ghost var d2 := data;
        var characters := MinimizeCharacters();
        ProgressTrans(f, d1, d2, data);
        ProgressTrans(f, d0, d1, data);
        ProgressTrans(f, old(data), d0, data);
        again := changed || symbols || characters;
        OnePass(f, d0, first, d1, d2, data);
        assert again <==> data != d0;
        if again {
          forall n: nat, r | Passes(f, data, false, n, r)
            ensures Passes(f, s, true, n + curPass, r)
          {
            assert Passes(f, d0, first, n + 1, r);
            assert Passes(f, s, true, n + 1 + (curPass - 1), r);
          }
        } else {
          assert Passes(f, d0, first, 1, data);
          assert Passes(f, s, true, 1 + (curPass - 1), data);
        }
        first := false;
      }
      assert Minimized(f, old(data), s, len, end, curPass, data);
    }
  }

  /** Stage 0 leads from `a` to `s`, and then passes lead to `r`. */
  ghost predicate Minimized(f: Oracle, a: File, s: File, len: nat, end: nat, n: nat, r: File) {
    && len == Max(TMIN_SET_MIN_SIZE, LeastPower(|a| / TMIN_SET_STEPS)) && |a| <= end
    && BlocksSet(f, a, s, len, end) && Passes(f, s, true, n, r)
  }

  function Max(a: nat, b: nat): nat { if a < b then b else a }

  lemma LastPass(f: Oracle, s: File)
    requires DeletedFrom(f, s, LeastPower(|s| / TRIM_START_STEPS)) == s
    ensures Passes(f, s, false, 1, s)
  {
  }

  lemma OnePass(f: Oracle, s: File, first: bool, d: File, a: File, c: File)
    requires d == DeletedFrom(f, s, LeastPower(|s| / TRIM_START_STEPS)) && SymbolsSet(f, d, a) && BytesSet(f, a, c)
    requires first || d != s
    ensures c == s ==> Passes(f, s, first, 1, s)
    ensures c != s ==> forall n: nat, r :: Passes(f, c, false, n, r) ==> Passes(f, s, first, n + 1, r)
  {
    hide SymbolsSet, BytesSet, DeletedFrom, LeastPower;
    if c == s {
      assert PassEnds(f, s, d, a, c, 1, s);
    } else {
      forall n: nat, r | Passes(f, c, false, n, r)
        ensures Passes(f, s, first, n + 1, r)
      {
        assert PassEnds(f, s, d, a, c, n + 1, r);
      }
    }
  }

  lemma NoBlocksSet(f: Oracle, s: File, len: nat)
    requires len > 0
    ensures BlocksSet(f, s, s, len, 0)
  {
  }

  lemma {:induction false} BlocksStaySet(f: Oracle, a: File, d: File, d': File, len: nat, end: nat)
    requires len > 0 && BlocksSet(f, a, d, len, end) && |d'| == |d|
    requires forall i :: 0 <= i < |d| && i < end ==> d'[i] == d[i]
    ensures BlocksSet(f, a, d', len, end)
  {
    if end > 0 {
      var pos := end - len;
      BlocksStaySet(f, a, d, d', len, pos);
      assert d'[..pos] == d[..pos] && d'[pos..pos + Room(a, pos, len)] == d[pos..pos + Room(a, pos, len)];
    }
  }

  lemma ZeroedParts(s: File, pos: nat, n: nat)
    requires pos + n <= |s|
    ensures var z := Zeroed(s, pos, n);
      |z| == |s| && z[..pos] == s[..pos] && z[pos..pos + n] == seq(n, _ => ZERO) && z[pos + n..] == s[pos + n..]
  {
  }

  lemma OneBlockSet(f: Oracle, a: File, d: File, len: nat, pos: nat, n: nat)
    requires len > 0 && BlocksSet(f, a, d, len, pos) && pos < |d| && d[pos..] == a[pos..] && n == Room(d, pos, len)
    requires f(d)
    ensures var z := Zeroed(d, pos, n);
      var d' := if z != d && f(z) then z else d;
      BlocksSet(f, a, d', len, pos + len) && (pos + len < |d| ==> d'[pos + len..] == a[pos + len..])
  {
    var z := Zeroed(d, pos, n);
    var d' := if z != d && f(z) then z else d;
    BlocksSize(f, a, d, len, pos);
    ZeroedParts(d, pos, n);
    hide Zeroed, BlocksSet, BlockSet;
    SameOutside(d, d', pos, n);
    BlocksStaySet(f, a, d, d', len, pos);
    ThisBlockSet(f, a, d, d', pos, n);
    OneBlockMore(f, a, d', len, pos);
    if pos + len < |d| { SameTail(d, d', a, pos, len); }
  }

  lemma SameOutside(d: File, d': File, pos: nat, n: nat)
    requires |d| == |d'| && pos + n <= |d| && d'[..pos] == d[..pos] && d'[pos + n..] == d[pos + n..]
    ensures forall i :: 0 <= i < pos ==> d'[i] == d[i]
  {
    forall i | 0 <= i < pos ensures d'[i] == d[i] { assert d'[..pos][i] == d[..pos][i]; }
  }

  lemma SameTail(d: File, d': File, a: File, pos: nat, len: nat)
    requires |d| == |d'| == |a| && pos + len <= |d| && d'[pos + len..] == d[pos + len..] && d[pos..] == a[pos..]
    ensures d'[pos + len..] == a[pos + len..]
  {
    assert d[pos + len..] == d[pos..][len..] && a[pos + len..] == a[pos..][len..];
  }

  lemma BlocksSize(f: Oracle, a: File, d: File, len: nat, end: nat)
    requires len > 0 && BlocksSet(f, a, d, len, end)
    ensures |a| == |d|
  {
  }

  lemma ThisBlockSet(f: Oracle, a: File, d: File, d': File, pos: nat, n: nat)
    requires pos + n <= |a| == |d| == |d'| && d[pos..] == a[pos..] && f(d)
    requires d' == if f(Zeroed(d, pos, n)) then Zeroed(d, pos, n) else d
    ensures BlockSet(f, a, d', pos, n)
  {
    ZeroedParts(d, pos, n);
    hide Zeroed;
    assert d'[..pos] + a[pos..] == d[..pos] + d[pos..] == d;
    assert a[pos..pos + n] == a[pos..][..n] && d[pos..pos + n] == d[pos..][..n];
  }

  lemma OneBlockMore(f: Oracle, a: File, d: File, len: nat, pos: nat)
    requires len > 0 && BlocksSet(f, a, d, len, pos) && pos < |a| && BlockSet(f, a, d, pos, Room(a, pos, len))
    ensures BlocksSet(f, a, d, len, pos + len)
  {
    hide BlockSet;
  }

  /** Stage 2 is done for the symbols below `n`. */
  ghost predicate SymbolsBelow(f: Oracle, a: File, d: File, n: nat) {
    && |a| == |d|
    && forall i :: 0 <= i < |a| ==>
         d[i] == if a[i] as int < n && (a[i] == ZERO || f(WithoutSymbol(Mixed(a, d, a[i]), a[i]))) then ZERO else a[i]
  }

  lemma NoSymbolsSet(f: Oracle, a: File)
    ensures SymbolsBelow(f, a, a, 0)
  {
  }

  lemma AllSymbolsSet(f: Oracle, a: File, d: File)
    requires SymbolsBelow(f, a, d, 256)
    ensures SymbolsSet(f, a, d)
  {
  }

  lemma OneSymbolSet(f: Oracle, a: File, d: File, b: byte)
    requires SymbolsBelow(f, a, d, b as nat) && f(d)
    ensures var tmp := WithoutSymbol(d, b);
      SymbolsBelow(f, a, if b != ZERO && b in a && f(tmp) then tmp else d, b as nat + 1)
  {
    var tmp := WithoutSymbol(d, b);
    var d' := if b != ZERO && b in a && f(tmp) then tmp else d;
    assert Mixed(a, d, b) == d;
    assert Mixed(a, d', b) == d;
    forall i | 0 <= i < |a| && a[i] < b ensures Mixed(a, d', a[i]) == Mixed(a, d, a[i]) {
    }
  }

  /** Stage 3 is done for the bytes below `n`. */
  ghost predicate BytesBelow(f: Oracle, a: File, d: File, n: nat) {
    && |a| == |d|
    && (forall i :: n <= i < |a| ==> d[i] == a[i])
    && forall i :: 0 <= i < |a| && i < n ==>
         d[i] == if a[i] == ZERO || f((d[..i] + a[i..])[i := ZERO]) then ZERO else a[i]
  }

  lemma NoBytesSet(f: Oracle, a: File)
    ensures BytesBelow(f, a, a, 0)
  {
  }

  lemma AllBytesSet(f: Oracle, a: File, d: File)
    requires BytesBelow(f, a, d, |d|)
    ensures BytesSet(f, a, d)
  {
  }

  lemma OneByteSet(f: Oracle, a: File, d: File, n: nat)
    requires BytesBelow(f, a, d, n) && n < |a|
    ensures BytesBelow(f, a, if d[n] != ZERO && f(d[n := ZERO]) then d[n := ZERO] else d, n + 1)
  {
    var d' := if d[n] != ZERO && f(d[n := ZERO]) then d[n := ZERO] else d;
    forall i | 0 <= i <= n ensures d'[..i] == d[..i] {}
    assert d[..n] + a[n..] == d;
  }

  lemma AllBytesNeeded(f: Oracle, s: File, end: nat)
    requires BlocksNeeded(f, s, 1, end) && |s| <= end
    ensures OneMinimal(f, s)
  {
    forall p | 0 <= p < |s| ensures !f(Without(s, p, 1)) { BytesNeeded(f, s, end, p); }
  }

  lemma Shortened(s: File, pos: nat, len: nat)
    requires pos < |s| && len > 0
    ensures pos <= |Without(s, pos, len)| < |s|
  {
  }

  lemma ZeroedBytes(s: File, pos: nat, len: nat)
    requires pos + len <= |s|
    ensures |Zeroed(s, pos, len)| == |s|
    ensures forall i :: 0 <= i < |s| ==> Zeroed(s, pos, len)[i] == s[i] || Zeroed(s, pos, len)[i] == ZERO
  {
  }

  lemma SymbolGone(s: File, b: byte)
    requires b in s && b != ZERO
    ensures var r := WithoutSymbol(s, b);
      && r != s && Simpler(s, r) && Weight(r) < Weight(s)
      && forall c :: c in s && c != b ==> c in r
  {
    var r := WithoutSymbol(s, b);
    var i :| 0 <= i < |s| && s[i] == b;
    assert r[i] == ZERO;
    ZeroingWeighs(s, r);
    forall c | c in s && c != b ensures c in r {
      var k :| 0 <= k < |s| && s[k] == c;
      assert r[k] == c;
    }
  }
}
