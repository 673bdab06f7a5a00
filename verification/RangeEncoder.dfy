// The byte-level range encoder of the LZMA encoder: a 33-bit low end, one cached byte and
// a run of pending 0xFF bytes stand for the unbounded low end of RangeCoder.Coder.

module RangeEncoder {
  import opened RangeCoder
  import opened LzmaSymbols
  import opened Words
  import LzmaModel

  function Fill(b: Byte, n: nat): (s: seq<Byte>)
    ensures |s| == n && forall i :: 0 <= i < n ==> s[i] == b
  {
    if n == 0 then [] else Fill(b, n - 1) + [b]
  }

  // Adding one to a number that ends in 0xFF bytes.
  lemma {:induction false} Carry(s: seq<Byte>, c: Byte, n: nat)
    requires c < 0xFF
    ensures BigEndian(s + [c] + Fill(0xFF, n)) + 1 == BigEndian(s + [c + 1] + Fill(0, n))
  {
    BigEndianSnoc(s, c);
    BigEndianSnoc(s, c + 1);
    if n == 0 {
      assert s + [c] + Fill(0xFF, 0) == s + [c] && s + [c + 1] + Fill(0, 0) == s + [c + 1];
    } else {
      Carry(s, c, n - 1);
      assert s + [c] + Fill(0xFF, n) == (s + [c] + Fill(0xFF, n - 1)) + [0xFF];
      assert s + [c + 1] + Fill(0, n) == (s + [c + 1] + Fill(0, n - 1)) + [0];
      BigEndianSnoc(s + [c] + Fill(0xFF, n - 1), 0xFF);
      BigEndianSnoc(s + [c + 1] + Fill(0, n - 1), 0);
    }
  }

  // Moving the top byte of low behind the digits multiplies the whole number by 256.
  lemma ShiftTotal(digits: nat, low: nat)
    ensures ((digits + low / WORD) * 256 + low % WORD / TOP) * WORD + low % TOP * 256
            == 256 * (digits * WORD + low)
  {
    var carry, top, rest := low / WORD, low % WORD / TOP, low % TOP;
    assert low == carry * WORD + top * TOP + rest;
  }

  // The n bits of value from position off up are those of rest.
  ghost predicate SameBits(value: nat, off: nat, rest: nat, n: nat) {
    rest < Pow2(n) && forall i :: 0 <= i < n ==> BitAt(value, i + off) == BitAt(rest, i)
  }

  // Taking the highest of the n bits off.
  lemma TakeTop(value: nat, off: nat, rest: nat, n: nat)
    requires n > 0 && SameBits(value, off, rest, n)
    ensures BitAt(value, n - 1 + off) == Top(n, rest)
    ensures SameBits(value, off, Rest(n, rest), n - 1)
  {
    TopIsBit(n, rest);
    forall i | 0 <= i < n - 1
      ensures BitAt(Rest(n, rest), i) == BitAt(value, i + off)
    {
      RestKeepsBits(n, rest, i);
    }
  }

  lemma {:induction false} TopIsBit(n: nat, v: nat)
    requires n > 0 && v < Pow2(n)
    ensures BitAt(v, n - 1) == Top(n, v)
    decreases n
  {
    if n > 1 { TopIsBit(n - 1, v / 2); }
  }

  lemma {:induction false} RestKeepsBits(n: nat, v: nat, i: nat)
    requires i < n - 1 && v < Pow2(n)
    ensures BitAt(Rest(n, v), i) == BitAt(v, i)
    decreases n
  {
    assert Pow2(n - 1) == 2 * Pow2(n - 2);
    if i > 0 {
      RestKeepsBits(n - 1, v / 2, i - 1);
      assert Rest(n, v) / 2 == Rest(n - 1, v / 2);
    }
  }

  lemma {:induction false} EncodeSnoc(e: Enc, xs: seq<Decision>, x: Decision)
    ensures EncodeAll(e, xs + [x]) == EncodeOne(EncodeAll(e, xs), x)
  {
    EncodeAllConcat(e, xs, [x]);
    assert EncodeAll(EncodeAll(e, xs), [x]) == EncodeOne(EncodeAll(e, xs), x);
  }

  // The low word and the whole number after i flushing shifts.
  function LowAfter(low: nat, i: nat): nat {
    if i == 0 then low else if i == 1 then low % TOP * 256 else if i == 2 then low % 0x10000 * 0x10000
    else if i == 3 then low % 256 * TOP else 0
  }

  lemma LowStep(low: nat, i: nat)
    ensures LowAfter(low, i) % TOP * 256 == LowAfter(low, i + 1)
  {
    var a := low % TOP;
    assert a == a / 0x10000 * 0x10000 + a % 0x10000 && a % 0x10000 == low % 0x10000;
    var b := low % 0x10000;
    assert b == b / 0x100 * 0x100 + b % 0x100 && b % 0x100 == low % 0x100;
  }

  function TotalAfter(total: nat, i: nat): nat {
    if i == 0 then total else 256 * TotalAfter(total, i - 1)
  }

  lemma TotalAfterFive(total: nat)
    ensures TotalAfter(total, 5) == 0x100 * WORD * total
  {
    assert TotalAfter(total, 1) == 0x100 * total;
    assert TotalAfter(total, 2) == 0x1_0000 * total;
    assert TotalAfter(total, 3) == 0x100_0000 * total;
    assert TotalAfter(total, 4) == 0x1_0000_0000 * total;
  }

  class RangeEnc {
    var low: nat
    var range: nat
    var cache: Byte
    var cacheSize: nat
    var out: seq<Byte>

    // The state at the start of the stream and the decisions made since then.
    ghost var start: Enc
    ghost var sent: seq<Decision>

    // The bytes that have left low, with the pending ones written out.
    ghost function Digits(): seq<Byte>
      reads this
    {
      out + [cache] + Fill(0xFF, if cacheSize == 0 then 0 else cacheSize - 1)
    }

    ghost function Total(): nat
      reads this
    {
      BigEndian(Digits()) * WORD + low
    }

    ghost function Abs(): Coder
      reads this
      requires cacheSize >= 1
    {
      Coder(Total(), range, |out| + cacheSize - 1)
    }

    // A carry fits into the cached byte: if that byte is 0xFF no carry can come.
    ghost predicate CarryFits()
      reads this
    {
      low + range <= 2 * WORD && (cache == 0xFF ==> low + range <= WORD)
    }

    ghost predicate Valid(probs: array<Prob>)
      reads this, probs
    {
      && cacheSize >= 1 && TOP <= range < WORD && CarryFits()
      && EncodeAll(start, sent) == Enc(Abs(), probs[..])
    }

    constructor (probs: array<Prob>)
      ensures Valid(probs) && start == LzmaModel.EncStart(probs[..]) && sent == []
    {
      low, range, cacheSize, cache, out := 0, 0xFFFF_FFFF, 1, 0, [];
      start, sent := LzmaModel.EncStart(probs[..]), [];
      new;
      assert Digits() == [0];
      assert BigEndian([0]) == 0;
    }

    // Writes the cached byte and the pending 0xFF bytes, plus a carry.
    method WritePending(carry: Bit)
      requires cacheSize >= 1 && (carry == 1 ==> cache < 0xFF)
      modifies this`out, this`cacheSize
      ensures cacheSize == 0 && |out| == old(|out| + cacheSize)
      ensures BigEndian(out) == BigEndian(old(Digits())) + carry
    {
      ghost var base, n := out, cacheSize - 1;
      var temp := cache;
      out := out + [(temp + carry) % 256];
      temp := 0xFF;
      cacheSize := cacheSize - 1;
      ghost var rest := Fill(if carry == 1 then 0 else 0xFF, 0);
      while cacheSize != 0
        invariant 0 <= cacheSize <= n
        invariant rest == Fill(if carry == 1 then 0 else 0xFF, n - cacheSize)
        invariant out == base + [cache + carry] + rest
      {
        out := out + [(temp + carry) % 256];
        cacheSize := cacheSize - 1;
        rest := rest + [(temp + carry) % 256];
      }
      if carry == 1 { Carry(base, cache, n); }
    }

    method ShiftLow()
      requires cacheSize >= 1 && low < 2 * WORD && (low >= WORD ==> cache < 0xFF)
      modifies this`out, this`cacheSize, this`cache, this`low
      ensures cacheSize >= 1
      ensures Total() == 256 * old(Total())
      ensures |out| + cacheSize == old(|out| + cacheSize) + 1
      ensures low == old(low) % TOP * 256
      ensures cache == 0xFF ==>
        old(low) >= WORD + 0xFF00_0000 || (old(cache) == 0xFF && 0xFF00_0000 <= old(low) < WORD)
      ensures old(low) < 0xFF00_0000 ==> cacheSize == 1 && cache == old(low) / TOP
    {
      hide BigEndian;
      ghost var digits, was := Digits(), low;
      ghost var digits' := digits + [0xFF];
      if low % WORD < 0xFF00_0000 || low / WORD != 0 {
        WritePending(low / WORD);
        cache := low % WORD / TOP;
        digits' := out + [cache];
        BigEndianSnoc(out, cache);
      } else {
        BigEndianSnoc(digits, 0xFF);
      }
      cacheSize := cacheSize + 1;
      low := low % TOP * 256;
      assert Digits() == digits';
      ShiftTotal(BigEndian(digits), was);
    }

    // The common end of the encoding steps: one shift if the range has become short.
    method ShiftIfShort()
      requires cacheSize >= 1 && 0x10000 < range < WORD && CarryFits()
      modifies this`out, this`cacheSize, this`cache, this`low, this`range
      ensures cacheSize >= 1 && TOP <= range < WORD && CarryFits()
      ensures Abs() == Renorm(old(Abs()))
    {
      if range < TOP {
        range := range * 256;
        ShiftLow();
      }
    }

    method EncodeBit(probs: array<Prob>, i: nat, symbol: Bit)
      requires Valid(probs) && i < probs.Length
      modifies this, probs
      ensures Valid(probs)
      ensures start == old(start) && sent == old(sent) + [Model(i, symbol)]
    {
      hide EncodeAll, BigEndian, Fill;
      var ttt: int := probs[i];
      var newBound := Split(range, ttt);
      SplitBounds(range, ttt);
      EncodeSnoc(start, sent, Model(i, symbol));
      if symbol == 0 {
        range := newBound;
        ttt := ttt + (2048 - ttt) / 32;
      } else {
        low := low + newBound;
        range := range - newBound;
        ttt := ttt - ttt / 32;
      }
      probs[i] := ttt;
      sent := sent + [Model(i, symbol)];
      ShiftIfShort();
    }

    method EncodeDirectBits(probs: array<Prob>, value: nat, numBits: nat)
      requires Valid(probs) && numBits > 0 && value < Pow2(numBits)
      modifies this
      ensures Valid(probs)
      ensures start == old(start) && sent == old(sent) + DirectBits(numBits, value)
    {
      hide EncodeAll, BigEndian, Abs, Total, CarryFits;
      var n := numBits;
      ghost var rest: nat := value;
      while n != 0
        invariant Valid(probs) && n <= numBits && SameBits(value, 0, rest, n)
        invariant start == old(start) && sent + DirectBits(n, rest) == old(sent) + DirectBits(numBits, value)
      {
        TakeTop(value, 0, rest, n);
        n := n - 1;
        EncodeDirectBit(probs, BitAt(value, n));
        rest := Rest(n + 1, rest);
      }
    }

    // Five shifts write the whole low end; only a zero byte stays in the cache.
    method FlushData(probs: array<Prob>)
      requires Valid(probs)
      modifies this`out, this`cacheSize, this`cache, this`low
      ensures LzmaModel.Flushed(EncodeAll(start, sent), out)
    {
      ghost var t, k, l := Total(), |out| + cacheSize, low;
      hide BigEndian, EncodeAll;
      var i := 0;
      while i < 5
        invariant 0 <= i <= 5 && cacheSize >= 1 && |out| + cacheSize == k + i
        invariant Total() == TotalAfter(t, i)
        invariant low == LowAfter(l, i)
        invariant i == 0 ==> CarryFits()
        invariant i == 5 ==> cacheSize == 1 && cache == 0
      {
        LowStep(l, i);
        ShiftLow();
        i := i + 1;
      }
      TotalAfterFive(t);
      assert Digits() == out + [0];
      BigEndianSnoc(out, 0);
    }

    // One turn of the loop above.
    method EncodeDirectBit(ghost probs: array<Prob>, bit: Bit)
      requires Valid(probs)
      modifies this
      ensures Valid(probs)
      ensures start == old(start) && sent == old(sent) + [Direct(bit)]
    {
      hide EncodeAll, BigEndian, Fill;
      EncodeSnoc(start, sent, Direct(bit));
      range := range / 2;
      low := low + if bit == 1 then range else 0;
      sent := sent + [Direct(bit)];
      ShiftIfShort();
    }
  }

  // ----- Symbol trees -------------------------------------------------------------------

  method RcTreeEncode(rc: RangeEnc, probs: array<Prob>, base: nat, numBitLevels: nat, symbol: nat)
    requires rc.Valid(probs) && symbol < Pow2(numBitLevels) && base + Pow2(numBitLevels) <= probs.Length
    modifies rc, probs
    ensures rc.Valid(probs)
    ensures rc.start == old(rc.start) && rc.sent == old(rc.sent) + TreeBits(base, numBitLevels, symbol)
  {
    hide EncodeAll, BigEndian, BitAt;
    hide RangeEnc.Valid, RangeEnc.Abs, RangeEnc.CarryFits, RangeEnc.Total;
    var m, i := 1, numBitLevels;
    ghost var rest: nat := symbol;
    while i != 0
      invariant rc.Valid(probs) && 0 <= i <= numBitLevels && SameBits(symbol, 0, rest, i)
      invariant 1 <= m < Pow2(numBitLevels - i + 1)
      invariant rc.start == old(rc.start)
      invariant rc.sent + GuidedBits(base, i, m, rest, 0, false) == old(rc.sent) + TreeBits(base, numBitLevels, symbol)
    {
      TakeTop(symbol, 0, rest, i);
      PowMonotonic(numBitLevels - i + 1, numBitLevels);
      i := i - 1;
      var bit := BitAt(symbol, i);
      rc.EncodeBit(probs, base + m, bit);
      m := 2 * m + bit;
      rest := Rest(i + 1, rest);
    }
  }

  method RcTreeReverseEncode(rc: RangeEnc, probs: array<Prob>, base: nat, numBitLevels: nat, symbol: nat)
    requires rc.Valid(probs) && base + Pow2(numBitLevels) <= probs.Length
    modifies rc, probs
    ensures rc.Valid(probs)
    ensures rc.start == old(rc.start) && rc.sent == old(rc.sent) + ReverseBits(base, numBitLevels, 1, symbol)
  {
    hide EncodeAll, BigEndian;
    hide RangeEnc.Valid, RangeEnc.Abs, RangeEnc.CarryFits, RangeEnc.Total;
    var m, i, sym := 1, 0, symbol;
    while i < numBitLevels
      invariant rc.Valid(probs) && 0 <= i <= numBitLevels
      invariant 1 <= m < Pow2(i + 1)
      invariant rc.start == old(rc.start)
      invariant rc.sent + ReverseBits(base, numBitLevels - i, m, sym)
             == old(rc.sent) + ReverseBits(base, numBitLevels, 1, symbol)
    {
      PowMonotonic(i + 1, numBitLevels);
      var bit := sym % 2;
      rc.EncodeBit(probs, base + m, bit);
      m := 2 * m + bit;
      sym := sym / 2;
      i := i + 1;
    }
  }
}
