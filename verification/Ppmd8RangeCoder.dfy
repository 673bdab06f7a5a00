// The carryless range coder of PPMd8: the range is cut short where a carry could otherwise
// change bytes that have been written already.

module Ppmd8RangeCoder {
  import opened Words

  const TOP := 0x100_0000
  const BOT := 0x8000

  // The interval [low, low + range).
  datatype Interval = Interval(low: nat, range: nat)

  const START := Interval(0, 0xFFFF_FFFF)

  // One coded symbol: the part [start, start + size) of total.
  datatype Part = Part(start: nat, size: nat, total: nat)

  predicate ValidPart(x: Part) {
    x.size >= 1 && x.start + x.size <= x.total <= BOT
  }

  // The end of the interval may be 2^32 but never beyond, so that no carry is ever lost, and
  // the range is never 0.
  predicate Inside(c: Interval) {
    && c.low < WORD && 0 < c.range < WORD && c.low + c.range <= WORD
    && (c.low + c.range == WORD ==> c.low >= TOP)
  }

  // Whether both ends, as 32-bit words, have the same top byte: their exclusive or is below TOP.
  predicate SameTop(c: Interval) {
    c.low / TOP % 256 == (c.low + c.range) % WORD / TOP
  }

  predicate Busy(c: Interval) { SameTop(c) || c.range < BOT }

  // The range that is left when a byte moves out: if the top bytes differ, what is below the
  // next multiple of BOT.
  function Kept(c: Interval): nat { if SameTop(c) then c.range else (WORD - c.low) % BOT }

  function Shifted(c: Interval): Interval { Interval(c.low * 256 % WORD, Kept(c) * 256 % WORD) }

  // The trick: cutting the range never empties it and never grows it, and the byte that moves
  // out is the top byte of every number in what is left.
  lemma KeptShort(c: Interval)
    requires Inside(c) && c.low < WORD && Busy(c)
    ensures 0 < Kept(c) <= c.range && Kept(c) < TOP
    ensures c.low % TOP + Kept(c) <= TOP
    ensures if SameTop(c) then Kept(c) == c.range && c.low % TOP + Kept(c) < TOP
            else Kept(c) < BOT && c.low % TOP + Kept(c) == TOP
    ensures c.low + c.range == WORD ==> !SameTop(c) && Kept(c) == c.range
  {
    var q, r := c.low / TOP, c.low % TOP;
    assert c.low == q * TOP + r && q < 256;
    if !SameTop(c) {
      assert r + c.range >= TOP;
      var x := TOP - r;
      ModUnique(WORD - c.low, BOT, 512 * (255 - q), x);
    }
  }

  // How far the loop below still is from its end.
  function Distance(c: Interval): int {
    if c.low + c.range == WORD then WORD - c.range else 2 * WORD - c.range
  }

  lemma ShiftedInside(c: Interval)
    requires Inside(c) && Busy(c)
    ensures Shifted(c) == Interval(c.low % TOP * 256, Kept(c) * 256)
    ensures Inside(Shifted(c)) && 0 <= Distance(Shifted(c)) < Distance(c)
  {
    hide Kept, Busy, SameTop;
    KeptShort(c);
    ModUnique(c.low * 256, WORD, c.low / TOP, c.low % TOP * 256);
  }

  // The interval with a range of at least BOT and top bytes that differ.
  function Normal(c: Interval): (n: Interval)
    requires Inside(c)
    ensures Inside(n) && !Busy(n)
    decreases Distance(c)
  {
    if !Busy(c) then c
    else
      ShiftedInside(c);
      Normal(Shifted(c))
  }

  // The bytes that move out on the way there.
  function Emitted(c: Interval): seq<Byte>
    requires Inside(c)
    decreases Distance(c)
  {
    if !Busy(c) then []
    else
      ShiftedInside(c);
      [c.low / TOP] + Emitted(Shifted(c))
  }

  // The part of an interval that a symbol takes.
  function Take(c: Interval, x: Part): (t: Interval)
    requires Inside(c) && !Busy(c) && ValidPart(x)
    ensures Inside(t)
  {
    TakeInside(c, x);
    Interval(c.low + x.start * (c.range / x.total), c.range / x.total * x.size)
  }

  lemma TakeInside(c: Interval, x: Part)
    requires Inside(c) && !Busy(c) && ValidPart(x)
    ensures c.range / x.total >= 1
    ensures Inside(Interval(c.low + x.start * (c.range / x.total), c.range / x.total * x.size))
    ensures c.low + x.start * (c.range / x.total) + c.range / x.total * x.size <= c.low + c.range
  {
    hide Busy;
    NotBusy(c);
    var r := c.range / x.total;
    DivGe(c.range, x.total);
    PartEnd(r, x.start, x.size, x.total);
    assert r * x.total <= c.range;
    MulGe(r, x.size);
  }

  lemma NotBusy(c: Interval)
    requires !Busy(c)
    ensures c.range >= BOT
  {}

  lemma DivGe(a: nat, b: nat)
    requires 1 <= b <= a
    ensures a / b >= 1
  {}

  lemma PartEnd(r: nat, start: nat, size: nat, total: nat)
    requires start + size <= total
    ensures start * r + r * size <= r * total
  {
    assert start * r + r * size == r * (start + size);
    MulOrder(r, start + size, total);
  }

  function FourBytes(v: nat): (s: seq<Byte>)
    requires v < WORD
    ensures |s| == 4
  {
    [v / TOP, v / 0x1_0000 % 256, v / 0x100 % 256, v % 256]
  }

  // All that the encoder writes from a state on: a byte for each shift, then the low end.
  function Output(c: Interval, xs: seq<Part>): (s: seq<Byte>)
    requires Inside(c) && !Busy(c) && forall x :: x in xs ==> ValidPart(x)
    ensures |s| >= 4
    decreases |xs|
  {
    if xs == [] then FourBytes(c.low)
    else
      var t := Take(c, xs[0]);
      Emitted(t) + Output(Normal(t), xs[1..])
  }

  lemma StartRests()
    ensures Inside(START) && !Busy(START)
  {
    assert START.low / TOP == 0 && (START.low + START.range) % WORD / TOP == 255;
  }

  // A whole coded stream.
  function Coded(xs: seq<Part>): (s: seq<Byte>)
    requires forall x :: x in xs ==> ValidPart(x)
    ensures |s| >= 4
  {
    StartRests();
    Output(START, xs)
  }

  // The number in the first four bytes.
  function Window(s: seq<Byte>): (v: nat)
    requires |s| >= 4
    ensures v < WORD
  {
    var b0: int, b1: int, b2: int, b3: int := s[0], s[1], s[2], s[3];
    b0 * TOP + b1 * 0x1_0000 + b2 * 0x100 + b3
  }

  lemma WindowOfFour(v: nat)
    requires v < WORD
    ensures Window(FourBytes(v)) == v
  {
    var a := v / 0x100;
    var b := a / 0x100;
    assert v / 0x1_0000 == b && v / TOP == b / 0x100;
  }

  // In front of a stream whose window is in what was left, the byte that moved out makes a
  // window in the interval before.
  lemma WindowBack(c: Interval, s: seq<Byte>)
    requires Inside(c) && Busy(c) && |s| >= 4
    requires Shifted(c).low <= Window(s) < Shifted(c).low + Shifted(c).range
    ensures c.low <= Window([c.low / TOP] + s) < c.low + Kept(c)
  {
    hide Kept, Busy, SameTop;
    ShiftedInside(c);
    var w := Window([c.low / TOP] + s);
    var s0: int, s1: int, s2: int, s3: int := s[0], s[1], s[2], s[3];
    assert 256 * (w - c.low / TOP * TOP) == Window(s) - s3;
  }

  // The same for a whole round of shifts.
  lemma {:induction false} WindowsBack(c: Interval, s: seq<Byte>)
    requires Inside(c) && |s| >= 4
    requires Normal(c).low <= Window(s) < Normal(c).low + Normal(c).range
    ensures c.low <= Window(Emitted(c) + s) < c.low + c.range
    decreases Distance(c)
  {
    if Busy(c) {
      ShiftedInside(c);
      KeptShort(c);
      WindowsBack(Shifted(c), s);
      WindowBack(c, Emitted(Shifted(c)) + s);
      assert Emitted(c) + s == [c.low / TOP] + (Emitted(Shifted(c)) + s);
    } else {
      assert Emitted(c) + s == s;
    }
  }

  // Whatever is still to come, what the encoder writes stays inside its interval.
  lemma {:induction false} OutputInside(c: Interval, xs: seq<Part>)
    requires Inside(c) && !Busy(c) && forall x :: x in xs ==> ValidPart(x)
    ensures c.low <= Window(Output(c, xs)) < c.low + c.range
    decreases |xs|
  {
    hide Window, FourBytes, Busy;
    if xs == [] {
      WindowOfFour(c.low);
    } else {
      var t := Take(c, xs[0]);
      TakeInside(c, xs[0]);
      OutputInside(Normal(t), xs[1..]);
      WindowsBack(t, Output(Normal(t), xs[1..]));
    }
  }

  // ----- Decoder -----------------------------------------------------------------------------

  // The same interval, the distance of the input from its low end, and the place in the input.
  datatype Dec = Dec(c: Interval, code: nat, pos: nat)

  function Read(inp: seq<Byte>, pos: nat): Byte { if pos < |inp| then inp[pos] else 0 }

  function Normalized(inp: seq<Byte>, d: Dec): (n: Dec)
    requires Inside(d.c)
    ensures n.c == Normal(d.c)
    decreases Distance(d.c)
  {
    if !Busy(d.c) then d
    else
      ShiftedInside(d.c);
      Normalized(inp, Dec(Shifted(d.c), (d.code * 256 + Read(inp, d.pos)) % WORD, d.pos + 1))
  }

  // Which number between 0 and total the input shows.
  function Threshold(d: Dec, total: nat): nat
    requires 1 <= total <= d.c.range
  {
    DivGe(d.c.range, total);
    d.code / (d.c.range / total)
  }

  function DecodePart(inp: seq<Byte>, d: Dec, x: Part): (n: Dec)
    requires Inside(d.c) && !Busy(d.c) && ValidPart(x)
    ensures n.c == Normal(Take(d.c, x))
  {
    Normalized(inp, Dec(Take(d.c, x), (d.code - x.start * (d.c.range / x.total)) % WORD, d.pos))
  }

  function DecStart(inp: seq<Byte>): Dec
    requires |inp| >= 4
  {
    Dec(START, Window(inp), 4)
  }

  // Every symbol shows up as a number inside its own part, and at the end the code is 0 and the
  // input is used up.
  ghost predicate Decodes(inp: seq<Byte>, d: Dec, xs: seq<Part>)
    requires Inside(d.c) && !Busy(d.c) && forall x :: x in xs ==> ValidPart(x)
    decreases |xs|
  {
    if xs == [] then d.code == 0 && d.pos == |inp|
    else
      assert ValidPart(xs[0]) && d.c.range >= BOT;
      && xs[0].start <= Threshold(d, xs[0].total) < xs[0].start + xs[0].size
      && Decodes(inp, DecodePart(inp, d, xs[0]), xs[1..])
  }

  // The decoder has read four bytes further than the encoder had written at this point.
  ghost predicate Sync(inp: seq<Byte>, d: Dec, ahead: seq<Byte>)
    requires |ahead| >= 4
  {
    d.code == Window(ahead) - d.c.low && d.pos <= |inp| && inp[d.pos..] == ahead[4..]
  }

  lemma {:induction false} NormalizedSync(inp: seq<Byte>, d: Dec, s: seq<Byte>)
    requires Inside(d.c) && |s| >= 4 && Sync(inp, d, Emitted(d.c) + s)
    requires Normal(d.c).low <= Window(s) < Normal(d.c).low + Normal(d.c).range
    ensures Sync(inp, Normalized(inp, d), s)
    decreases Distance(d.c)
  {
    if Busy(d.c) {
      var c := Shifted(d.c);
      ShiftedInside(d.c);
      WindowsBack(c, s);
      var ahead := Emitted(c) + s;
      assert Emitted(d.c) + s == [d.c.low / TOP] + ahead;
      ShiftSync(inp, d, ahead);
      NormalizedSync(inp, Dec(c, (d.code * 256 + Read(inp, d.pos)) % WORD, d.pos + 1), s);
    } else {
      assert Emitted(d.c) + s == s;
    }
  }

  // One shift: the code takes the next byte and nothing is lost at the top.
  lemma ShiftSync(inp: seq<Byte>, d: Dec, ahead: seq<Byte>)
    requires Inside(d.c) && Busy(d.c) && |ahead| >= 4
    requires Sync(inp, d, [d.c.low / TOP] + ahead)
    requires Shifted(d.c).low <= Window(ahead)
    ensures Sync(inp, Dec(Shifted(d.c), (d.code * 256 + Read(inp, d.pos)) % WORD, d.pos + 1), ahead)
  {
    hide Kept, Busy, SameTop, Shifted, Inside;
    ShiftedInside(d.c);
    var all := [d.c.low / TOP] + ahead;
    assert all[4..] == ahead[3..];
    assert inp[d.pos] == all[4..][0] == ahead[3];
    assert inp[d.pos + 1..] == inp[d.pos..][1..] == ahead[4..];
    var a0: int, a1: int, a2: int, a3: int := ahead[0], ahead[1], ahead[2], ahead[3];
    assert Window(all) == d.c.low / TOP * TOP + a0 * 0x1_0000 + a1 * 0x100 + a2;
    assert d.code * 256 + a3 == Window(ahead) - d.c.low % TOP * 256;
  }

  lemma {:induction false} StaysInSync(inp: seq<Byte>, d: Dec, xs: seq<Part>)
    requires Inside(d.c) && !Busy(d.c) && forall x :: x in xs ==> ValidPart(x)
    requires Sync(inp, d, Output(d.c, xs))
    ensures Decodes(inp, d, xs)
    decreases |xs|
  {
    hide Window, Busy, Inside, FourBytes;
    if xs == [] {
      WindowOfFour(d.c.low);
    } else {
      var x := xs[0];
      var t := Take(d.c, x);
      var r := d.c.range / x.total;
      var ahead := Output(Normal(t), xs[1..]);
      TakeInside(d.c, x);
      OutputInside(Normal(t), xs[1..]);
      WindowsBack(t, ahead);
      NotBusy(d.c);
      PartShows(d.code, r, x);
      NormalizedSync(inp, Dec(t, d.code - x.start * r, d.pos), ahead);
      StaysInSync(inp, DecodePart(inp, d, x), xs[1..]);
    }
  }

  lemma PartShows(code: nat, r: nat, x: Part)
    requires r >= 1 && x.start * r <= code < x.start * r + r * x.size && code < WORD
    ensures x.start <= code / r < x.start + x.size
    ensures (code - x.start * r) % WORD == code - x.start * r
  {
    var q := code / r;
    if q < x.start { MulOrder(r, q + 1, x.start); }
    if q >= x.start + x.size { MulOrder(r, x.start + x.size, q); }
  }

  // Main result: for every sequence of parts the decoder finds each of them, ends with code 0,
  // and reads exactly the bytes that were written.
  lemma RoundTrip(xs: seq<Part>)
    requires forall x :: x in xs ==> ValidPart(x)
    ensures Inside(START) && !Busy(START)
    ensures Decodes(Coded(xs), DecStart(Coded(xs)), xs) && DecStart(Coded(xs)).code < 0xFFFF_FFFF
  {
    hide Inside, Busy, Window;
    StartRests();
    OutputInside(START, xs);
    StaysInSync(Coded(xs), DecStart(Coded(xs)), xs);
  }

  // ----- The coder objects ---------------------------------------------------------------------

  // Where the encoder is after some parts, and what it has written.
  function After(xs: seq<Part>): (c: Interval)
    requires forall x :: x in xs ==> ValidPart(x)
    ensures Inside(c) && !Busy(c)
    decreases |xs|
  {
    StartRests();
    if xs == [] then START else Normal(Take(After(xs[..|xs| - 1]), xs[|xs| - 1]))
  }

  function Written(xs: seq<Part>): seq<Byte>
    requires forall x :: x in xs ==> ValidPart(x)
    decreases |xs|
  {
    if xs == [] then []
    else
      var before := xs[..|xs| - 1];
      Written(before) + Emitted(Take(After(before), xs[|xs| - 1]))
  }

  lemma {:induction false} WrittenThenOutput(xs: seq<Part>, ys: seq<Part>)
    requires forall x :: x in xs ==> ValidPart(x)
    requires forall x :: x in ys ==> ValidPart(x)
    ensures Written(xs) + Output(After(xs), ys) == Coded(xs + ys)
    decreases |xs|
  {
    hide Busy, Inside, Take, Emitted, Normal;
    if xs == [] {
      assert xs + ys == ys;
    } else {
      var before, last := xs[..|xs| - 1], xs[|xs| - 1];
      var more := [last] + ys;
      WrittenThenOutput(before, more);
      assert before + more == xs + ys && more[1..] == ys;
    }
  }

  class RangeEnc {
    var low: nat
    var range: nat
    var out: seq<Byte>
    ghost var sent: seq<Part>

    ghost function C(): Interval
      reads this
    {
      Interval(low, range)
    }

    ghost predicate Valid()
      reads this
    {
      (forall x :: x in sent ==> ValidPart(x)) && C() == After(sent) && out == Written(sent)
    }

    constructor ()
      ensures Valid() && sent == []
    {
      low, range, out, sent := 0, 0xFFFF_FFFF, [], [];
    }

    // Bytes move out while the top bytes agree or the range is short; a short range is cut.
    method Normalize()
      requires Inside(C())
      modifies this`low, this`range, this`out
      ensures C() == Normal(old(C())) && out == old(out) + Emitted(old(C()))
    {
      hide Inside, Emitted, Shifted;
      ghost var c, before := C(), out;
      var more := true;
      while more
        invariant Inside(C()) && Normal(C()) == Normal(c) && out + Emitted(C()) == before + Emitted(c)
        invariant !more ==> !Busy(C())
        decreases more, Distance(C())
      {
        if low / TOP % 256 != (low + range) % WORD / TOP {
          if range < BOT {
            ShiftedInside(C());
            ghost var d := C();
            range := (WORD - low) % BOT;
            Shift(d);
          } else {
            more := false;
          }
        } else {
          ShiftedInside(C());
          Shift(C());
        }
      }
      AtRest(C());
      assert out + [] == out;
    }

    method Shift(ghost d: Interval)
      requires Inside(d) && Busy(d) && low == d.low && range == Kept(d)
      modifies this`low, this`range, this`out
      ensures Inside(Shifted(d)) && C() == Shifted(d) && out + Emitted(C()) == old(out) + Emitted(d)
    {
      ShiftedInside(d);
      assert out + [low / TOP] + Emitted(Shifted(d)) == out + ([low / TOP] + Emitted(Shifted(d)));
      out := out + [low / TOP];
      range := range * 256 % WORD;
      low := low * 256 % WORD;
    }

    method Encode(start: nat, size: nat, total: nat)
      requires Valid() && ValidPart(Part(start, size, total))
      modifies this
      ensures Valid() && sent == old(sent) + [Part(start, size, total)]
    {
      hide Busy, Inside, Emitted, Normal;
      ghost var x, c := Part(start, size, total), C();
      TakeInside(c, x);
      range := range / total;
      low := low + start * range;
      range := range * size;
      sent := sent + [x];
      Normalize();
    }

    // A binary symbol with odds size0 : 2^14 - size0.
    method EncodeBit0(size0: nat)
      requires Valid() && 1 <= size0 < 0x4000
      modifies this
      ensures Valid() && sent == old(sent) + [Part(0, size0, 0x4000)]
    {
      hide Busy, Inside, Emitted, Normal;
      ghost var x, c := Part(0, size0, 0x4000), C();
      TakeInside(c, x);
      range := range / 0x4000;
      range := range * size0;
      sent := sent + [x];
      Normalize();
    }

    method EncodeBit1(size0: nat)
      requires Valid() && 1 <= size0 < 0x4000
      modifies this
      ensures Valid() && sent == old(sent) + [Part(size0, 0x4000 - size0, 0x4000)]
    {
      hide Busy, Inside, Emitted, Normal;
      ghost var x, c := Part(size0, 0x4000 - size0, 0x4000), C();
      TakeInside(c, x);
      range := range / 0x4000;
      low := low + size0 * range;
      range := range * (0x4000 - size0);
      sent := sent + [x];
      Normalize();
    }

    // The low end in full; then the output is all that RoundTrip speaks about.
    method FlushData()
      requires Valid()
      modifies this`low, this`out
      ensures out == Coded(sent)
    {
      hide Window, FourBytes, LowAfter, Coded, Written, After, Inside, Busy;
      FlushEnds(sent);
      ghost var was, v := out, low;
      LowStep(v, 0);
      assert was + FourBytes(v)[..0] == was;
      var i := 0;
      while i < 4
        invariant 0 <= i <= 4 && low == LowAfter(v, i) && out == was + FourBytes(v)[..i]
      {
        LowStep(v, i);
        assert out + [FourBytes(v)[i]] == was + (FourBytes(v)[..i] + [FourBytes(v)[i]]);
        out := out + [low / TOP];
        low := low * 256 % WORD;
        i := i + 1;
      }
      assert FourBytes(v)[..4] == FourBytes(v);
    }
  }

  lemma AtRest(c: Interval)
    requires Inside(c) && !Busy(c)
    ensures Emitted(c) == [] && Normal(c) == c
  {}

  lemma FlushEnds(xs: seq<Part>)
    requires forall x :: x in xs ==> ValidPart(x)
    ensures After(xs).low < WORD && Written(xs) + FourBytes(After(xs).low) == Coded(xs)
  {
    WrittenThenOutput(xs, []);
    assert xs + [] == xs;
  }

  // A word shifted left by i bytes.
  function LowAfter(v: nat, i: nat): nat {
    if i == 0 then v
    else if i == 1 then v % TOP * 0x100 else if i == 2 then v % 0x1_0000 * 0x1_0000
    else if i == 3 then v % 0x100 * TOP else 0
  }

  lemma LowStep(v: nat, i: nat)
    requires v < WORD && i < 4
    ensures LowAfter(v, 0) == v
    ensures LowAfter(v, i) / TOP == FourBytes(v)[i] && LowAfter(v, i) * 256 % WORD == LowAfter(v, i + 1)
    ensures FourBytes(v)[..i] + [FourBytes(v)[i]] == FourBytes(v)[..i + 1]
  {
    var a := v / 0x100;
    var b := a / 0x100;
    var c := b / 0x100;
    var v0, v1, v2 := v % 0x100, a % 0x100, b % 0x100;
    assert v / 0x1_0000 == b && v / TOP == c;
    assert v % 0x1_0000 == v1 * 0x100 + v0 && v % TOP == v2 * 0x1_0000 + v1 * 0x100 + v0;
    if i == 0 {
      ModUnique(v * 256, WORD, c, v % TOP * 0x100);
    } else if i == 1 {
      ModUnique(v % TOP * 0x1_0000, WORD, v2, v % 0x1_0000 * 0x1_0000);
    } else if i == 2 {
      ModUnique(v % 0x1_0000 * TOP, WORD, v1, v0 * TOP);
    } else {
      ModUnique(v0 * WORD, WORD, v0, 0);
    }
  }

  class RangeDec {
    var low: nat
    var range: nat
    var code: nat
    const src: seq<Byte>
    var pos: nat

    ghost function D(): Dec
      reads this
    {
      Dec(Interval(low, range), code, pos)
    }

    // Reads four bytes; ok tells that the code is below the range.
    constructor (input: seq<Byte>)
      requires |input| >= 4
      ensures src == input && D() == DecStart(input)
    {
      src := input;
      low, range, pos := 0, 0xFFFF_FFFF, 4;
      code := Window(input);
    }

    // The range is divided for good: Decode goes on from there.
    method GetThreshold(total: nat) returns (t: nat)
      requires 1 <= total <= range
      modifies this`range
      ensures t == Threshold(old(D()), total) && range == old(range) / total
    {
      DivGe(range, total);
      range := range / total;
      t := code / range;
    }

    // c is the interval before the range was divided.
    method Decode(start: nat, size: nat, ghost c: Interval, ghost total: nat)
      requires Inside(c) && !Busy(c) && ValidPart(Part(start, size, total))
      requires low == c.low && range == c.range / total && code < WORD
      modifies this`low, this`range, this`code, this`pos
      ensures D() == DecodePart(src, Dec(c, old(code), old(pos)), Part(start, size, total))
    {
      hide Busy, Inside, SameTop, Kept;
      TakeInside(c, Part(start, size, total));
      var from := start * range;
      low := low + from;
      code := (code - from) % WORD;
      range := range * size;
      Normalize();
    }

    method Normalize()
      requires Inside(D().c) && code < WORD
      modifies this`low, this`range, this`code, this`pos
      ensures D() == Normalized(src, old(D()))
    {
      ghost var d := D();
      var more := true;
      while more
        invariant Inside(D().c) && code < WORD && Normalized(src, D()) == Normalized(src, d)
        invariant !more ==> !Busy(D().c)
        decreases more, Distance(D().c)
      {
        if low / TOP % 256 != (low + range) % WORD / TOP {
          if range < BOT {
            ShiftedInside(D().c);
            ghost var c := D().c;
            range := (WORD - low) % BOT;
            Shift(c);
          } else {
            more := false;
          }
        } else {
          ShiftedInside(D().c);
          Shift(D().c);
        }
      }
    }

    method Shift(ghost c: Interval)
      requires Inside(c) && Busy(c) && low == c.low && range == Kept(c) && code < WORD
      modifies this`low, this`range, this`code, this`pos
      ensures D() == Dec(Shifted(c), (old(code) * 256 + Read(src, old(pos))) % WORD, old(pos) + 1)
    {
      code := (code * 256 + Read(src, pos)) % WORD;
      pos := pos + 1;
      range := range * 256 % WORD;
      low := low * 256 % WORD;
    }
  }

  method Send(xs: seq<Part>) returns (out: seq<Byte>)
    requires forall x :: x in xs ==> ValidPart(x)
    ensures out == Coded(xs)
  {
    hide Coded, Inside, Busy, After, Written;
    var enc := new RangeEnc();
    var i := 0;
    while i < |xs|
      invariant 0 <= i <= |xs| && enc.Valid() && enc.sent == xs[..i]
    {
      enc.Encode(xs[i].start, xs[i].size, xs[i].total);
      i := i + 1;
    }
    assert xs[..i] == xs;
    enc.FlushData();
    out := enc.out;
  }

  // Reads parts whose totals and sizes are known from outside, as the context model knows them.
  method Receive(inp: seq<Byte>, xs: seq<Part>) returns (found: bool, clean: bool)
    requires |inp| >= 4 && forall x :: x in xs ==> ValidPart(x)
    requires Inside(START) && !Busy(START) && Decodes(inp, DecStart(inp), xs)
    ensures found && clean
  {
    hide Inside, Busy, Window, DecodePart, Threshold, Decodes;
    var dec := new RangeDec(inp);
    StartCode(inp);
    assert xs[0..] == xs;
    var i := 0;
    while i < |xs|
      invariant 0 <= i <= |xs| && Inside(dec.D().c) && !Busy(dec.D().c) && dec.code < WORD
      invariant Decodes(inp, dec.D(), xs[i..])
    {
      ghost var d := dec.D();
      assert ValidPart(xs[i]) && xs[i..][0] == xs[i] && xs[i..][1..] == xs[i + 1..];
      NotBusy(d.c);
      DecodesOne(inp, d, xs[i..]);
      var t := dec.GetThreshold(xs[i].total);
      if !(xs[i].start <= t < xs[i].start + xs[i].size) {
        return false, false;
      }
      CodeIsWord(inp, d, xs[i]);
      dec.Decode(xs[i].start, xs[i].size, d.c, xs[i].total);
      i := i + 1;
    }
    DecodesNone(inp, dec.D());
    found, clean := true, dec.code == 0 && dec.pos == |inp|;
  }

  lemma StartCode(inp: seq<Byte>)
    requires |inp| >= 4
    ensures DecStart(inp).code < WORD
  {}

  lemma DecodesOne(inp: seq<Byte>, d: Dec, xs: seq<Part>)
    requires xs != [] && Inside(d.c) && !Busy(d.c) && forall x :: x in xs ==> ValidPart(x)
    requires ValidPart(xs[0]) && d.c.range >= BOT && Decodes(inp, d, xs)
    ensures xs[0].start <= Threshold(d, xs[0].total) < xs[0].start + xs[0].size
    ensures Decodes(inp, DecodePart(inp, d, xs[0]), xs[1..])
  {
    hide Threshold, DecodePart;
  }

  lemma DecodesNone(inp: seq<Byte>, d: Dec)
    requires Inside(d.c) && !Busy(d.c)
    ensures Decodes(inp, d, []) <==> d.code == 0 && d.pos == |inp|
  {}

  // Both objects at work: each part is found again, and the end is clean.
  method Transmit(xs: seq<Part>) returns (found: bool, clean: bool)
    requires forall x :: x in xs ==> ValidPart(x)
    ensures found && clean
  {
    hide Coded, Decodes, Inside, Busy;
    RoundTrip(xs);
    var out := Send(xs);
    found, clean := Receive(out, xs);
  }

  lemma CodeIsWord(inp: seq<Byte>, d: Dec, x: Part)
    requires Inside(d.c) && !Busy(d.c) && ValidPart(x)
    ensures DecodePart(inp, d, x).code < WORD
  {
    NormalizedIsWord(inp, Dec(Take(d.c, x), (d.code - x.start * (d.c.range / x.total)) % WORD, d.pos));
  }

  lemma {:induction false} NormalizedIsWord(inp: seq<Byte>, d: Dec)
    requires Inside(d.c) && d.code < WORD
    ensures Normalized(inp, d).code < WORD
    decreases Distance(d.c)
  {
    if Busy(d.c) {
      ShiftedInside(d.c);
      NormalizedIsWord(inp, Dec(Shifted(d.c), (d.code * 256 + Read(inp, d.pos)) % WORD, d.pos + 1));
    }
  }
}
