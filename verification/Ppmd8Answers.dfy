// Bytes of the PPMd8 range coder given in numbers, apart from the decoder: one part in 256, and a range
// that has to be cut short.

module Ppmd8Answers {
  import opened Words
  import opened Ppmd8RangeCoder

  lemma NormalStep(c: Interval)
    requires Inside(c) && Busy(c)
    ensures Inside(Shifted(c)) && Normal(c) == Normal(Shifted(c))
    ensures c.low / TOP < 256 && Emitted(c) == [c.low / TOP] + Emitted(Shifted(c))
  {
    ShiftedInside(c);
  }

  lemma NormalHere(c: Interval)
    requires Inside(c) && !Busy(c)
    ensures Normal(c) == c && Emitted(c) == []
  {}

  lemma OutputOne(c: Interval, x: Part, more: seq<Part>)
    requires Inside(c) && !Busy(c) && ValidPart(x) && forall y :: y in more ==> ValidPart(y)
    ensures Output(c, [x] + more) == Emitted(Take(c, x)) + Output(Normal(Take(c, x)), more)
  {
    assert ([x] + more)[1..] == more;
  }

  lemma Nothing()
    ensures Coded([]) == [0, 0, 0, 0]
  {
    StartRests();
  }

  // Main result: one part in 256 is written as these bytes, whichever it is.
  lemma OneByte(b: Byte)
    ensures ValidPart(Part(b, 1, 256))
    ensures Coded([Part(b, 1, 256)]) == if b == 0 then [0, 0, 0, 0, 0] else [b - 1, 0xFF, 0xFF, 256 - b]
  {
    hide Emitted, Normal, Output, Busy, Inside, FourBytes, Take, SameTop;
    var x: Part, v: nat := Part(b, 1, 256), b;
    StartRests();
    OutputOne(START, x, []);
    assert [x] + [] == [x];
    FirstTake(v);
    if v == 0 {
      ZeroShifts();
      EndsWith(Interval(0, 0xFFFF_FF00));
    } else {
      ByteStays(v);
      EndsWith(Interval(v * 0xFF_FFFF, 0xFF_FFFF));
    }
  }

  lemma FirstTake(v: nat)
    requires v < 256 && Inside(START) && !Busy(START)
    ensures Take(START, Part(v, 1, 256)) == Interval(v * 0xFF_FFFF, 0xFF_FFFF)
  {
    hide Busy, Inside, SameTop;
    assert 0xFFFF_FFFF / 256 == 0xFF_FFFF;
  }

  lemma EndsWith(c: Interval)
    requires Inside(c) && !Busy(c)
    ensures Output(c, []) == FourBytes(c.low)
  {}

  lemma ZeroShifts()
    ensures Inside(Interval(0, 0xFF_FFFF)) && Emitted(Interval(0, 0xFF_FFFF)) == [0]
    ensures Normal(Interval(0, 0xFF_FFFF)) == Interval(0, 0xFFFF_FF00)
    ensures Inside(Interval(0, 0xFFFF_FF00)) && !Busy(Interval(0, 0xFFFF_FF00)) && FourBytes(0) == [0, 0, 0, 0]
  {
    var c, d := Interval(0, 0xFF_FFFF), Interval(0, 0xFFFF_FF00);
    assert Shifted(c) == d;
    NormalStep(c);
    NormalHere(d);
  }

  lemma ByteStays(v: nat)
    requires 1 <= v < 256
    ensures var c := Interval(v * 0xFF_FFFF, 0xFF_FFFF);
      && Inside(c) && !Busy(c) && Emitted(c) == [] && Normal(c) == c
      && FourBytes(c.low) == [v - 1, 0xFF, 0xFF, 256 - v]
  {
    var c := Interval(v * 0xFF_FFFF, 0xFF_FFFF);
    ByteEnds(v);
    hide FourBytes, Emitted, Normal;
    NormalHere(c);
  }

  lemma ByteEnds(v: nat)
    requires 1 <= v < 256
    ensures var c := Interval(v * 0xFF_FFFF, 0xFF_FFFF);
      Inside(c) && !Busy(c) && FourBytes(c.low) == [v - 1, 0xFF, 0xFF, 256 - v]
  {
    ModUnique(v * 0xFF_FFFF, TOP, v - 1, TOP - v);
    ModUnique(v * 0xFF_FFFF + 0xFF_FFFF, TOP, v, TOP - v - 1);
    FourDigits(256 - v, 0xFF, 0xFF, v - 1);
  }

  // Main result: two parts whose range reaches over the boundary of a byte and is cut short twice.
  lemma CutShort()
    ensures Coded([Part(128, 1, 0x8000), Part(42, 1, 0x8000)]) == [0, 0xFF, 0xFF, 0xFE, 0, 0]
  {
    hide Emitted, Normal, Output, Busy, Inside, Take, Shifted, FourBytes;
    var x, y := Part(128, 1, 0x8000), Part(42, 1, 0x8000);
    var a, b, c, d := Interval(0xFF_FF80, 0x1_FFFF), Interval(0xFF_FFFE, 3), Interval(0xFFFF_FE00, 0x200),
                      Interval(0xFFFE_0000, 0x2_0000);
    StartRests();
    CutTakes();
    CutShifts();
    assert [x] + [y] == [x, y] && [y] + [] == [y];
    OutputOne(START, x, [y]);
    NormalHere(a);
    OutputOne(a, y, []);
    NormalStep(b);
    NormalStep(c);
    NormalHere(d);
    EndsWith(d);
  }

  lemma CutTakes()
    requires Inside(START) && !Busy(START)
    ensures var a := Interval(0xFF_FF80, 0x1_FFFF);
      && Take(START, Part(128, 1, 0x8000)) == a && Inside(a) && !Busy(a)
      && Take(a, Part(42, 1, 0x8000)) == Interval(0xFF_FFFE, 3)
  {
    assert 0xFFFF_FFFF / 0x8000 == 0x1_FFFF && 0x1_FFFF / 0x8000 == 3;
  }

  lemma CutShifts()
    ensures var b, c, d := Interval(0xFF_FFFE, 3), Interval(0xFFFF_FE00, 0x200), Interval(0xFFFE_0000, 0x2_0000);
      && Inside(b) && Busy(b) && Shifted(b) == c && Inside(c) && Busy(c) && Shifted(c) == d && Inside(d) && !Busy(d)
      && b.low / TOP == 0 && c.low / TOP == 0xFF && FourBytes(d.low) == [0xFF, 0xFE, 0, 0]
  {}
}
