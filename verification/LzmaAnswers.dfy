// Bytes and decisions of the LZMA format given in numbers, apart from the decoder: what a fresh model
// makes of one literal, and what a symbol's decisions are in contexts counted from the table's start.

module LzmaAnswers {
  import opened RangeCoder
  import opened LzmaSymbols
  import opened LzmaModel
  import opened Words
  import LzmaFormat

  // In a fresh model both outcomes of a decision are equally likely.
  lemma FreshEven(n: nat, ctx: nat, range: nat)
    ensures Split(range, ProbAt(FreshProbs(n), ctx)) == range / 2048 * 1024
    ensures 0 <= range - 2 * Split(range, ProbAt(FreshProbs(n), ctx)) < 2048
  {}

  // ----- One literal -------------------------------------------------------------------

  // No context from "from" on has been used yet.
  ghost predicate Fresh(probs: Probs, from: nat) {
    forall ctx :: from <= ctx ==> ProbAt(probs, ctx) == 1024
  }

  lemma FreshOn(probs: Probs, x: Decision, from: nat)
    requires x.Model? && x.ctx < from && Fresh(probs, x.ctx)
    ensures Fresh(Learn(probs, x), from)
  {
    forall ctx | from <= ctx
      ensures ProbAt(Learn(probs, x), ctx) == 1024
    {
      assert ProbAt(probs, ctx) == 1024;
    }
  }

  // The next decision of a plain tree in fresh contexts.
  lemma TreeStep(e: Enc, base: nat, n: nat, m: nat, v: nat)
    requires n > 0 && m >= 1 && v < Pow2(n) && Fresh(e.probs, base + m)
    ensures var x := Model(base + m, Top(n, v));
      var c := if Top(n, v) == 0 then e.c.(range := e.c.range / 2048 * 1024)
               else e.c.(low := e.c.low + e.c.range / 2048 * 1024, range := e.c.range - e.c.range / 2048 * 1024);
      && EncodeOne(e, x) == Enc(Renorm(c), Learn(e.probs, x))
      && Fresh(Learn(e.probs, x), base + 2 * m + Top(n, v))
      && EncodeAll(e, GuidedBits(base, n, m, v, 0, false)) ==
         EncodeAll(EncodeOne(e, x), GuidedBits(base, n - 1, 2 * m + Top(n, v), Rest(n, v), 0, false))
  {
    var x := Model(base + m, Top(n, v));
    var rest := GuidedBits(base, n - 1, 2 * m + Top(n, v), Rest(n, v), 0, false);
    assert ProbAt(e.probs, base + m) == 1024;
    FreshOn(e.probs, x, base + 2 * m + Top(n, v));
    assert GuidedBits(base, n, m, v, 0, false) == [x] + rest && ([x] + rest)[1..] == rest;
  }

  // From a range of 2^(23 + n) on, n bits halve it exactly, and the last of them moves a byte out.
  lemma {:induction false} HalvedTail(e: Enc, base: nat, n: nat, m: nat, v: nat)
    requires 1 <= n <= 7 && m >= 1 && v < Pow2(n) && Fresh(e.probs, base + m)
    requires e.c.range == 0x80_0000 * Pow2(n)
    ensures EncodeAll(e, GuidedBits(base, n, m, v, 0, false)).c ==
      Coder(256 * (e.c.low + 0x80_0000 * v), 0x8000_0000, e.c.shifts + 1)
    decreases n
  {
    hide GuidedBits, Fresh, Learn, EncodeAll;
    TreeStep(e, base, n, m, v);
    var e' := EncodeOne(e, Model(base + m, Top(n, v)));
    HalfOf(Pow2(n - 1));
    if n == 1 {
      NoBits(e', base, 2 * m + Top(n, v));
    } else {
      assert Pow2(n - 1) >= 2 by { assert Pow2(n - 1) == 2 * Pow2(n - 2); }
      HalvedTail(e', base, n - 1, 2 * m + Top(n, v), Rest(n, v));
    }
  }

  lemma HalfOf(k: nat)
    ensures 0x80_0000 * (2 * k) / 2048 * 1024 == 0x80_0000 * k
  {
    assert 0x80_0000 * (2 * k) == 2048 * (0x2000 * k);
  }

  lemma NoBits(e: Enc, base: nat, m: nat)
    ensures Pow2(0) == 1 && EncodeAll(e, GuidedBits(base, 0, m, 0, 0, false)) == e
  {}

  // After zeros only, the range is 1024 short of a power of two.
  lemma ZerosStep(e: Enc, base: nat, n: nat, m: nat, v: nat)
    requires 2 <= n <= 8 && m >= 1 && v < Pow2(n) && Fresh(e.probs, base + m)
    requires e.c == Coder(0, 0x80_0000 * Pow2(n) - 1024, 0)
    ensures var b, k := Top(n, v), Pow2(n - 1);
      var e' := EncodeOne(e, Model(base + m, b));
      && e'.c == (if b == 1 then Coder(0x80_0000 * k - 1024, 0x80_0000 * k, 0)
                  else if n == 2 then Coder(0, 0xFFFC_0000, 1)
                  else Coder(0, 0x80_0000 * k - 1024, 0))
      && Fresh(e'.probs, base + 2 * m + b)
      && EncodeAll(e, GuidedBits(base, n, m, v, 0, false)) ==
         EncodeAll(e', GuidedBits(base, n - 1, 2 * m + b, Rest(n, v), 0, false))
  {
    hide GuidedBits, EncodeAll;
    TreeStep(e, base, n, m, v);
    HalfBelow(Pow2(n - 1));
    TwoPowers(n);
  }

  lemma {:induction false} ZerosFirst(e: Enc, base: nat, n: nat, m: nat, v: nat)
    requires 2 <= n <= 8 && m >= 1 && v < Pow2(n) && Fresh(e.probs, base + m)
    requires e.c == Coder(0, 0x80_0000 * Pow2(n) - 1024, 0)
    ensures var c := EncodeAll(e, GuidedBits(base, n, m, v, 0, false)).c;
      && c.shifts == 1
      && c.low == if v == 0 then 0 else if v == 1 then 0x7FFE_0000 else 0x8000_0000 * v - 0x4_0000
    decreases n
  {
    hide GuidedBits, EncodeAll, EncodeOne, Fresh;
    ZerosStep(e, base, n, m, v);
    TwoPowers(n);
    var e' := EncodeOne(e, Model(base + m, Top(n, v)));
    if Top(n, v) == 1 {
      HalvedTail(e', base, n - 1, 2 * m + 1, Rest(n, v));
    } else if n == 2 {
      ZerosLast(e', base, 2 * m, v);
    } else {
      ZerosFirst(e', base, n - 1, 2 * m, v);
    }
  }

  lemma TwoPowers(n: nat)
    requires n >= 2
    ensures Pow2(n) == 2 * Pow2(n - 1) && Pow2(n - 1) >= 2
    ensures if n == 2 then Pow2(n - 1) == 2 else Pow2(n - 1) >= 4
  {
    assert Pow2(n - 1) == 2 * Pow2(n - 2);
    if n > 2 {
      assert Pow2(n - 2) == 2 * Pow2(n - 3);
    }
  }

  // The last bit after seven zeros: a byte has moved out before it.
  lemma ZerosLast(e: Enc, base: nat, m: nat, v: nat)
    requires m >= 1 && v < 2 && Fresh(e.probs, base + m) && e.c == Coder(0, 0xFFFC_0000, 1)
    ensures Pow2(1) == 2
    ensures EncodeAll(e, GuidedBits(base, 1, m, v, 0, false)).c ==
      Coder(if v == 0 then 0 else 0x7FFE_0000, 0x7FFE_0000, 1)
  {
    hide GuidedBits, Fresh, Learn, EncodeAll;
    assert Pow2(1) == 2 && Pow2(0) == 1;
    TreeStep(e, base, 1, m, v);
    NoBits(EncodeOne(e, Model(base + m, Top(1, v))), base, 2 * m + Top(1, v));
  }

  lemma HalfBelow(k: nat)
    requires k >= 1
    ensures (0x80_0000 * (2 * k) - 1024) / 2048 * 1024 == 0x80_0000 * k - 1024
  {
    assert 0x80_0000 * (2 * k) - 1024 == 2048 * (0x2000 * k - 1) + 1024;
  }

  // What is written for one literal and no end marker.
  function LiteralStream(b: Byte): seq<Byte> {
    if b == 0 then [0, 0, 0, 0, 0, 0]
    else if b == 1 then [0, 0, 0x7F, 0xFE, 0, 0]
    else if b % 2 == 0 then [0, b / 2 - 1, 0xFF, 0xFC, 0, 0]
    else [0, b / 2, 0x7F, 0xFC, 0, 0]
  }

  lemma BigEndianSix(x: Byte, y: Byte, z: Byte)
    ensures BigEndian([0, x, y, z, 0, 0]) == 0x1_0000_0000 * x + 0x100_0000 * y + 0x1_0000 * z
  {
    var none: seq<Byte>, zero: Byte := [], 0;
    BigEndianSnoc(none, zero);
    BigEndianSnoc([zero], x);
    BigEndianSnoc([zero, x], y);
    BigEndianSnoc([zero, x, y], z);
    BigEndianSnoc([zero, x, y, z], zero);
    BigEndianSnoc([zero, x, y, z, zero], zero);
    hide BigEndian;
    assert none + [zero] == [zero] && [zero] + [x] == [zero, x] && [zero, x] + [y] == [zero, x, y];
    assert [zero, x, y] + [z] == [zero, x, y, z] && [zero, x, y, z] + [zero] == [zero, x, y, z, zero];
    assert [zero, x, y, z, zero] + [zero] == [0, x, y, z, 0, 0];
  }

  lemma LiteralNumber(b: Byte)
    ensures |LiteralStream(b)| == 6 && BigEndian(LiteralStream(b)) ==
      if b == 0 then 0 else if b == 1 then 0x7FFE_0000 else 0x8000_0000 * b - 0x4_0000
  {
    hide BigEndian;
    var s := LiteralStream(b);
    BigEndianSix(s[1], s[2], s[3]);
    assert s == [0, s[1], s[2], s[3], 0, 0];
  }

  // A number has one string of bytes of a given length.
  lemma {:induction false} BytesOfNumber(s: seq<Byte>, t: seq<Byte>)
    requires |s| == |t| && BigEndian(s) == BigEndian(t)
    ensures s == t
    decreases |s|
  {
    if s != [] {
      var a, b := s[..|s| - 1], t[..|t| - 1];
      LastByte(BigEndian(a), s[|s| - 1], BigEndian(b), t[|t| - 1]);
      BytesOfNumber(a, b);
      assert s == a + [s[|s| - 1]] && t == b + [t[|t| - 1]];
    }
  }

  lemma LastByte(m: nat, x: Byte, n: nat, y: Byte)
    requires m * 256 + x == n * 256 + y
    ensures m == n && x == y
  {}

  // Main result: whatever the settings, one byte and no end marker become the six bytes stated, and no
  // data become five zeros.
  lemma OneLiteral(p: Props, data: seq<Byte>, out: seq<Byte>)
    requires ValidProps(p) && |data| == 1 && ParseOf(p, LZ_START, [Literal(data[0])], data)
    requires Flushed(EncodeAll(EncStart(FreshProbs(NumProbs(p))), AllBits(p, [Literal(data[0])], data, false)), out)
    ensures out == LiteralStream(data[0])
  {
    hide GuidedBits, NumProbs, AllBits, EncodeAll, EncodeOne, BigEndian, LiteralStream, FreshProbs, ParseOf;
    var b, e := data[0], EncStart(FreshProbs(NumProbs(p)));
    FirstBits(p, data);
    EncodeFirst(e, Model(IS_MATCH, 0), TreeBits(LITERAL, 8, b));
    FirstDecision(NumProbs(p));
    assert Pow2(8) == 256;
    ZerosFirst(EncodeOne(e, Model(IS_MATCH, 0)), LITERAL, 8, 1, b);
    LiteralNumber(b);
    BytesOfNumber(out, LiteralStream(b));
  }

  lemma FirstBits(p: Props, data: seq<Byte>)
    requires ValidProps(p) && |data| == 1 && ParseOf(p, LZ_START, [Literal(data[0])], data)
    ensures data[0] < Pow2(8)
    ensures AllBits(p, [Literal(data[0])], data, false) == [Model(IS_MATCH, 0)] + TreeBits(LITERAL, 8, data[0])
  {
    hide ViewOf, GuidedBits, Apply;
    assert Pow2(8) == 256;
    FirstView(p);
    var syms := [Literal(data[0])];
    var z1 := Apply(p, LZ_START, syms[0], 1);
    assert syms[1..] == [] && SymbolSize(syms[0]) == 1;
    assert StreamBits(p, z1, syms[1..], data) == [];
    var bits := SymbolBits(ViewOf(p, LZ_START), syms[0]);
    assert StreamBits(p, LZ_START, syms, data) == bits + [] == bits;
    assert AllBits(p, syms, data, false) == bits + [] == bits;
    assert LiteralBits(View(0, 0, LITERAL, 0), data[0]) == TreeBits(LITERAL, 8, data[0]);
  }

  lemma EncodeFirst(e: Enc, x: Decision, xs: seq<Decision>)
    ensures EncodeAll(e, [x] + xs) == EncodeAll(EncodeOne(e, x), xs)
  {
    assert ([x] + xs)[1..] == xs;
  }

  // It is a literal: the first decision of all.
  lemma FirstDecision(n: nat)
    ensures var e := EncodeOne(EncStart(FreshProbs(n)), Model(IS_MATCH, 0));
      e.c == Coder(0, 0x7FFF_FC00, 0) && Fresh(e.probs, LITERAL + 1)
  {
    var e, x := EncStart(FreshProbs(n)), Model(IS_MATCH, 0);
    assert Fresh(e.probs, 0);
    FreshOn(e.probs, x, LITERAL + 1);
    FreshEven(n, 0, 0xFFFF_FFFF);
  }

  lemma NoLiteral(p: Props, out: seq<Byte>)
    requires ValidProps(p) && Flushed(EncodeAll(EncStart(FreshProbs(NumProbs(p))), AllBits(p, [], [], false)), out)
    ensures out == [0, 0, 0, 0, 0]
  {
    var zeros: seq<Byte> := [0, 0, 0, 0, 0];
    ZerosAreZero(5);
    assert zeros == seq(5, _ => 0);
    BytesOfNumber(out, zeros);
  }

  lemma {:induction false} ZerosAreZero(n: nat)
    ensures BigEndian(seq(n, _ => 0)) == 0
  {
    if n > 0 {
      ZerosAreZero(n - 1);
      assert seq(n, _ => 0)[..n - 1] == seq(n - 1, _ => 0);
    }
  }

  // ----- Contexts used once each -------------------------------------------------------------------

  // One decision at even odds.
  function Even(c: Coder, x: Decision): Coder {
    var half := if x.Model? then c.range / 2048 * 1024 else c.range / 2;
    Renorm(if x.bit == 0 then c.(range := half)
           else Coder(c.low + half, if x.Model? then c.range - half else half, c.shifts))
  }

  function EvenAll(c: Coder, xs: seq<Decision>): Coder
    decreases |xs|
  {
    if xs == [] then c else EvenAll(Even(c, xs[0]), xs[1..])
  }

  // Every context of the list is still fresh, and none occurs twice.
  ghost predicate OnceEach(probs: Probs, xs: seq<Decision>) {
    && (forall i :: 0 <= i < |xs| && xs[i].Model? ==> ProbAt(probs, xs[i].ctx) == 1024)
    && (forall i, j :: 0 <= i < j < |xs| && xs[i].Model? && xs[j].Model? ==> xs[i].ctx != xs[j].ctx)
  }

  lemma EvenIs(e: Enc, x: Decision)
    requires x.Model? ==> ProbAt(e.probs, x.ctx) == 1024
    ensures EncodeOne(e, x) == Enc(Even(e.c, x), Learn(e.probs, x))
  {
    hide Learn;
  }

  lemma {:induction false} EvenRun(e: Enc, xs: seq<Decision>)
    requires OnceEach(e.probs, xs)
    ensures EncodeAll(e, xs).c == EvenAll(e.c, xs)
    decreases |xs|
  {
    hide Renorm, Adapt;
    if xs != [] {
      var x, probs := xs[0], Learn(e.probs, xs[0]);
      EvenIs(e, x);
      forall i | 0 <= i < |xs| - 1 && xs[1..][i].Model?
        ensures ProbAt(probs, xs[1..][i].ctx) == 1024
      {
        assert xs[1..][i] == xs[i + 1] && ProbAt(e.probs, xs[i + 1].ctx) == 1024;
      }
      EvenRun(EncodeOne(e, x), xs[1..]);
    }
  }

  lemma {:induction false} EvenConcat(c: Coder, xs: seq<Decision>, ys: seq<Decision>)
    ensures EvenAll(c, xs + ys) == EvenAll(EvenAll(c, xs), ys)
    decreases |xs|
  {
    if xs == [] {
      assert xs + ys == ys;
    } else {
      assert (xs + ys)[1..] == xs[1..] + ys;
      EvenConcat(Even(c, xs[0]), xs[1..], ys);
    }
  }

  // n direct bits, all 1.
  function Ones(n: nat): (xs: seq<Decision>)
    ensures |xs| == n && forall i :: 0 <= i < n ==> xs[i] == Direct(1)
  {
    seq(n, _ => Direct(1))
  }

  ghost predicate AllOnes(xs: seq<Decision>) { forall i :: 0 <= i < |xs| ==> xs[i].bit == 1 }

  // Up to eight ones of either kind that halve a power of two down to 2^23 move one byte out.
  lemma {:induction false} OnesRun(c: Coder, xs: seq<Decision>)
    requires 1 <= |xs| <= 8 && AllOnes(xs) && c.range == 0x80_0000 * Pow2(|xs|)
    ensures EvenAll(c, xs) == Coder(256 * (c.low + c.range - 0x80_0000), 0x8000_0000, c.shifts + 1)
    decreases |xs|
  {
    var k := Pow2(|xs| - 1);
    HalfOf(k);
    OneHalf(c, xs[0], k);
    if |xs| == 1 {
      assert xs[1..] == [] && k == 1;
    } else {
      assert k >= 2 by { assert k == 2 * Pow2(|xs| - 2); }
      hide Even;
      OnesRun(Even(c, xs[0]), xs[1..]);
    }
  }

  lemma OneHalf(c: Coder, x: Decision, k: nat)
    requires x.bit == 1 && k >= 1 && c.range == 0x80_0000 * (2 * k)
    ensures Even(c, x) == Renorm(Coder(c.low + 0x80_0000 * k, 0x80_0000 * k, c.shifts))
  {
    HalfOf(k);
  }

  lemma {:induction false} DirectOnes(n: nat)
    ensures DirectBits(n, Pow2(n) - 1) == Ones(n)
    decreases n
  {
    if n > 0 {
      DirectOnes(n - 1);
      assert Top(n, Pow2(n) - 1) == 1 && Rest(n, Pow2(n) - 1) == Pow2(n - 1) - 1;
      assert [Direct(1)] + Ones(n - 1) == Ones(n);
    }
  }

  // ----- The end marker ------------------------------------------------------------------------------

  // Up to the slot, which is the last one, and after the 26 bits that are sent as they are.
  function MarkHead(): seq<Decision> {
    [Model(0, 1), Model(192, 0), Model(818, 0), Model(821, 0), Model(822, 0), Model(824, 0),
     Model(433, 1), Model(435, 1), Model(439, 1), Model(447, 1), Model(463, 1), Model(495, 1)]
  }

  function MarkTail(): seq<Decision> { [Model(803, 1), Model(805, 1), Model(809, 1), Model(817, 1)] }

  lemma MarkOnce(n: nat)
    ensures OnceEach(FreshProbs(n), MarkHead() + Ones(26) + MarkTail())
  {
    var xs := MarkHead() + Ones(26) + MarkTail();
    assert forall i :: 12 <= i < 38 ==> xs[i] == Direct(1);
    assert forall i :: 0 <= i < 12 ==> xs[i] == MarkHead()[i];
    assert forall i :: 38 <= i < 42 ==> xs[i] == MarkTail()[i - 38];
  }

  // One 1 and five zeros.
  lemma HeadRun(xs: seq<Decision>)
    requires |xs| == 6 && (forall i :: 0 <= i < 6 ==> xs[i].Model?) && xs[0].bit == 1
    requires forall i :: 1 <= i < 6 ==> xs[i].bit == 0
    ensures EvenAll(START, xs) == Coder(0x7FFF_FC00, 0x400_0000, 0)
  {
    var c1 := Coder(0x7FFF_FC00, 0x8000_03FF, 0);
    var c2, c3 := c1.(range := 0x4000_0000), c1.(range := 0x2000_0000);
    var c4, c5 := c1.(range := 0x1000_0000), c1.(range := 0x800_0000);
    assert Even(START, xs[0]) == c1 && Even(c1, xs[1]) == c2 && Even(c2, xs[2]) == c3;
    assert Even(c3, xs[3]) == c4 && Even(c4, xs[4]) == c5 && Even(c5, xs[5]) == c1.(range := 0x400_0000);
    hide Even;
    EvenNext(START, xs, 0);
    EvenNext(c1, xs, 1);
    EvenNext(c2, xs, 2);
    EvenNext(c3, xs, 3);
    EvenNext(c4, xs, 4);
    EvenNext(c5, xs, 5);
  }

  lemma EvenNext(c: Coder, xs: seq<Decision>, i: nat)
    requires i < |xs|
    ensures EvenAll(c, xs[i..]) == EvenAll(Even(c, xs[i]), xs[i + 1..])
    ensures EvenAll(c, xs[|xs|..]) == c && xs[0..] == xs
  {
    assert xs[i..][1..] == xs[i + 1..];
  }

  // And 36 ones.
  lemma TailRun(xs: seq<Decision>)
    requires |xs| == 36 && AllOnes(xs)
    ensures EvenAll(Coder(0x7FFF_FC00, 0x400_0000, 0), xs) == Coder(0x83_FFFB_FFFF_C0000000, 0x4000_0000, 5)
  {
    hide EvenAll, Even;
    var c0, c1 := Coder(0x7FFF_FC00, 0x400_0000, 0), Coder(0x83_7FFC_0000, 0x8000_0000, 1);
    var c2, c3 := Coder(0x83FF_7C00_0000, 0x8000_0000, 2), Coder(0x83_FFFB_8000_0000, 0x8000_0000, 3);
    var c4, c5 := Coder(0x83FF_FBFF_8000_0000, 0x8000_0000, 4), Coder(0x83_FFFB_FFFF_8000_0000, 0x8000_0000, 5);
    OnesPowers();
    OnesPart(c0, c1, xs, 0, 3);
    OnesPart(c1, c2, xs, 3, 11);
    OnesPart(c2, c3, xs, 11, 19);
    OnesPart(c3, c4, xs, 19, 27);
    OnesPart(c4, c5, xs, 27, 35);
    LastOne(c5, xs);
  }

  lemma OnesPowers()
    ensures Pow2(3) == 8 && Pow2(8) == 256
  {}

  lemma OnesPart(c: Coder, d: Coder, xs: seq<Decision>, i: nat, j: nat)
    requires i < j <= |xs| && j <= i + 8 && AllOnes(xs) && c.range == 0x80_0000 * Pow2(j - i)
    requires d == Coder(256 * (c.low + c.range - 0x80_0000), 0x8000_0000, c.shifts + 1)
    ensures EvenAll(c, xs[i..]) == EvenAll(d, xs[j..]) && xs[0..] == xs
  {
    hide EvenAll, Even, Pow2;
    OnesRun(c, xs[i..j]);
    EvenConcat(c, xs[i..j], xs[j..]);
    assert xs[i..] == xs[i..j] + xs[j..];
  }

  lemma LastOne(c: Coder, xs: seq<Decision>)
    requires |xs| == 36 && AllOnes(xs) && c.range == 0x8000_0000
    ensures EvenAll(c, xs[35..]) == Coder(c.low + 0x4000_0000, 0x4000_0000, c.shifts)
  {
    hide EvenAll, Even;
    OneHalf(c, xs[35], 128);
    EvenNext(c, xs, 35);
    EvenNext(Even(c, xs[35]), xs, 35);
  }

  lemma MarkAlone(p: Props)
    requires ValidProps(p)
    ensures AllBits(p, [], [], true) == SymbolBits(View(0, 0, LITERAL, 0), Match(MAX_DIST, 0))
  {
    hide ViewOf, SymbolBits;
    FirstView(p);
    assert StreamBits(p, LZ_START, [], []) == [] && Finish(p, LZ_START, [], []) == LZ_START;
  }

  lemma MarkDistance()
    ensures Pow2(6) == 64 && DistanceBits(0, MAX_DIST) == TreeBits(432, 6, 63) + (Ones(26) + MarkTail())
  {
    hide TreeBits, ReverseBits, DirectBits, Ones, MarkTail, DistanceBits, Shr;
    MarkPowers();
    LzmaFormat.DistanceDecisions(0, MAX_DIST, 31);
    OnesAbove(32, 30);
    DirectOnes(26);
    MarkTrees();
    hide Pow2;
  }

  lemma MarkPowers()
    ensures Pow2(2) == 4 && Pow2(3) == 8 && Pow2(6) == 64 && Pow2(26) == 0x400_0000 && Pow2(30) == 0x4000_0000
    ensures Pow2(31) == 0x8000_0000 && Pow2(32) == 0x1_0000_0000
  {
    Pow2At32();
    assert Pow2(26) == 0x400_0000 && Pow2(30) == 0x4000_0000 by { PowThirty(); }
    assert Pow2(31) == 2 * Pow2(30);
  }

  lemma PowThirty()
    ensures Pow2(26) == 0x400_0000 && Pow2(30) == 0x4000_0000
  {
    assert Pow2(10) == 1024;
    assert Pow2(20) == 0x10_0000;
  }

  lemma {:induction false} OnesAbove(n: nat, j: nat)
    requires j <= n
    ensures Shr(Pow2(n) - 1, j) == Pow2(n - j) - 1
    decreases j
  {
    if j > 0 {
      assert Pow2(n) == 2 * Pow2(n - 1) && (Pow2(n) - 1) / 2 == Pow2(n - 1) - 1;
      OnesAbove(n - 1, j - 1);
    }
  }

  lemma MarkDecisions(p: Props)
    requires ValidProps(p)
    ensures AllBits(p, [], [], true) == MarkHead() + Ones(26) + MarkTail()
  {
    hide TreeBits, DistanceBits, SymbolBits, LengthBits, AllBits, Ones, MarkHead, MarkTail, Pow2;
    var v, s := View(0, 0, LITERAL, 0), Match(MAX_DIST, 0);
    MarkAlone(p);
    LzmaFormat.MatchDecisions(v, s);
    LzmaFormat.LengthDecisions(818, 0, 0);
    MarkDistance();
    MarkTrees();
    MarkSlot();
    MarkParts(TreeBits(820, 3, 0), TreeBits(432, 6, 63), Ones(26) + MarkTail());
    assert MarkHead() + (Ones(26) + MarkTail()) == MarkHead() + Ones(26) + MarkTail();
  }

  lemma MarkParts(low: seq<Decision>, slot: seq<Decision>, rest: seq<Decision>)
    requires low == [Model(821, 0), Model(822, 0), Model(824, 0)]
    requires slot == [Model(433, 1), Model(435, 1), Model(439, 1), Model(447, 1), Model(463, 1), Model(495, 1)]
    ensures [Model(0, 1), Model(192, 0)] + ([Model(818, 0)] + low) + (slot + rest) == MarkHead() + rest
  {
    assert [Model(0, 1), Model(192, 0)] + ([Model(818, 0)] + low) + slot == MarkHead();
  }

  lemma MarkTrees()
    ensures Pow2(3) == 8 && TreeBits(820, 3, 0) == [Model(821, 0), Model(822, 0), Model(824, 0)]
    ensures ReverseBits(802, 4, 1, 15) == MarkTail()
  {}

  lemma MarkSlot()
    ensures Pow2(6) == 64 && TreeBits(432, 6, 63) ==
      [Model(433, 1), Model(435, 1), Model(439, 1), Model(447, 1), Model(463, 1), Model(495, 1)]
  {}

  // Main result: no data and an end marker become these ten bytes.
  lemma OnlyMark(p: Props, out: seq<Byte>)
    requires ValidProps(p)
    requires Flushed(EncodeAll(EncStart(FreshProbs(NumProbs(p))), AllBits(p, [], [], true)), out)
    ensures out == [0, 0x83, 0xFF, 0xFB, 0xFF, 0xFF, 0xC0, 0, 0, 0]
  {
    hide EncodeAll, EvenAll, AllBits, FreshProbs, NumProbs, BigEndian, OnceEach;
    var n, xs := NumProbs(p), MarkHead() + Ones(26) + MarkTail();
    MarkDecisions(p);
    MarkOnce(n);
    EvenRun(EncStart(FreshProbs(n)), xs);
    MarkSplit();
    EvenConcat(START, xs[..6], xs[6..]);
    assert xs == xs[..6] + xs[6..];
    HeadRun(xs[..6]);
    TailRun(xs[6..]);
    MarkNumber();
    BytesOfNumber(out, [0, 0x83, 0xFF, 0xFB, 0xFF, 0xFF, 0xC0, 0, 0, 0]);
  }

  lemma MarkSplit()
    ensures var xs := MarkHead() + Ones(26) + MarkTail();
      && |xs| == 42 && (forall i :: 0 <= i < 6 ==> xs[i] == MarkHead()[i]) && AllOnes(xs[6..])
  {
    var xs := MarkHead() + Ones(26) + MarkTail();
    forall i | 6 <= i < 42
      ensures xs[i].bit == 1
    {
      if i < 12 { assert xs[i] == MarkHead()[i]; }
      else if i < 38 { assert xs[i] == Ones(26)[i - 12]; }
      else { assert xs[i] == MarkTail()[i - 38]; }
    }
    assert forall i :: 0 <= i < 36 ==> xs[6..][i] == xs[i + 6];
  }

  lemma MarkNumber()
    ensures BigEndian([0, 0x83, 0xFF, 0xFB, 0xFF, 0xFF, 0xC0, 0, 0, 0]) == 0x83_FFFB_FFFF_C0000000
  {
    var none: seq<Byte> := [];
    NumberOn(none, 0, 0x83, 0xFF);
    NumberOn([0, 0x83, 0xFF], 0xFB, 0xFF, 0xFF);
    NumberOn([0, 0x83, 0xFF, 0xFB, 0xFF, 0xFF], 0xC0, 0, 0);
    BigEndianSnoc([0, 0x83, 0xFF, 0xFB, 0xFF, 0xFF, 0xC0, 0, 0], 0);
    hide BigEndian;
    assert none + [0, 0x83, 0xFF] == [0, 0x83, 0xFF];
    assert BigEndian(none) == 0 by { NoNumber(); }
    assert [0, 0x83, 0xFF] + [0xFB, 0xFF, 0xFF] == [0, 0x83, 0xFF, 0xFB, 0xFF, 0xFF];
    assert [0, 0x83, 0xFF, 0xFB, 0xFF, 0xFF] + [0xC0, 0, 0] == [0, 0x83, 0xFF, 0xFB, 0xFF, 0xFF, 0xC0, 0, 0];
    assert [0, 0x83, 0xFF, 0xFB, 0xFF, 0xFF, 0xC0, 0, 0] + [0] == [0, 0x83, 0xFF, 0xFB, 0xFF, 0xFF, 0xC0, 0, 0, 0];
  }

  lemma NoNumber()
    ensures BigEndian([]) == 0
  {}

  lemma NumberOn(s: seq<Byte>, x: Byte, y: Byte, z: Byte)
    ensures BigEndian(s + [x, y, z]) == 0x100_0000 * BigEndian(s) + 0x1_0000 * x + 0x100 * y + z
  {
    BigEndianSnoc(s, x);
    BigEndianSnoc(s + [x], y);
    BigEndianSnoc(s + [x, y], z);
    assert s + [x] + [y] == s + [x, y] && s + [x, y] + [z] == s + [x, y, z];
  }
}
