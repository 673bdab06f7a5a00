// The arithmetic behind the LZMA range coder: an encoder that works on an unbounded
// low end, a decoder that works on 32-bit words, and the proof that the decoder
// recovers every decision the encoder made.

module RangeCoder {
  import opened Words

  // An adaptive probability. Its type says that adaptation never leaves 31..2017.
  type Prob = p: int | 31 <= p <= 2017 witness 1024
  type Probs = seq<Prob>

  const TOP := 0x100_0000

  datatype Option<+T> = None | Some(value: T)

  // One binary decision: adaptive in a context, or direct with equal odds.
  datatype Decision = Model(ctx: nat, bit: Bit) | Direct(bit: Bit)

  function Adapt(p: Prob, b: Bit): Prob {
    if b == 0 then p + (2048 - p) / 32 else p - p / 32
  }

  // Contexts outside the table behave like a fresh one; the coders never use them.
  function ProbAt(probs: Probs, ctx: nat): Prob {
    if ctx < |probs| then probs[ctx] else 1024
  }

  function Learn(probs: Probs, x: Decision): (r: Probs)
    ensures |r| == |probs|
  {
    if x.Model? && x.ctx < |probs| then probs[x.ctx := Adapt(probs[x.ctx], x.bit)] else probs
  }

  // ----- Encoder ---------------------------------------------------------------

  // The interval [low, low + range) after "shifts" bytes have moved out; low is the
  // whole number written so far, carries included.
  datatype Coder = Coder(low: nat, range: nat, shifts: nat)
  datatype Enc = Enc(c: Coder, probs: Probs)

  predicate Ready(c: Coder) { TOP <= c.range < WORD }

  const START := Coder(0, 0xFFFF_FFFF, 0)

  function Split(range: nat, p: Prob): (bound: nat)
    ensures bound <= range
  {
    assert range / 2048 * p <= range / 2048 * 2048;
    range / 2048 * p
  }

  function Narrow(c: Coder, probs: Probs, x: Decision): Coder {
    match x
    case Model(ctx, b) =>
      var bound := Split(c.range, ProbAt(probs, ctx));
      if b == 0 then c.(range := bound)
      else c.(low := c.low + bound, range := c.range - bound)
    case Direct(b) =>
      var half := c.range / 2;
      if b == 0 then c.(range := half) else c.(low := c.low + half, range := half)
  }

  function Renorm(c: Coder): Coder {
    if c.range < TOP then Coder(c.low * 256, c.range * 256, c.shifts + 1) else c
  }

  function EncodeOne(e: Enc, x: Decision): Enc {
    Enc(Renorm(Narrow(e.c, e.probs, x)), Learn(e.probs, x))
  }

  function EncodeAll(e: Enc, xs: seq<Decision>): Enc
    decreases |xs|
  {
    if xs == [] then e else EncodeAll(EncodeOne(e, xs[0]), xs[1..])
  }

  lemma EncodeOneReady(e: Enc, x: Decision)
    requires Ready(e.c)
    ensures Ready(EncodeOne(e, x).c)
  {
    var p := if x.Model? then ProbAt(e.probs, x.ctx) else 1024;
    SplitBounds(e.c.range, p);
  }

  // Splitting a normalised range leaves both halves large enough for one shift.
  lemma SplitBounds(range: nat, p: Prob)
    requires range >= TOP
    ensures 0x10000 < Split(range, p) < range
    ensures range - Split(range, p) > 0x10000
  {
    var q := range / 2048;
    assert q >= 0x2000;
    assert q * 31 <= q * p <= q * 2017;
  }

  lemma {:induction false} EncodeAllConcat(e: Enc, xs: seq<Decision>, ys: seq<Decision>)
    ensures EncodeAll(e, xs + ys) == EncodeAll(EncodeAll(e, xs), ys)
    decreases |xs|
  {
    if xs == [] {
      assert xs + ys == ys;
    } else {
      assert (xs + ys)[1..] == xs[1..] + ys;
      EncodeAllConcat(EncodeOne(e, xs[0]), xs[1..], ys);
    }
  }

  // ----- Decoder ---------------------------------------------------------------

  // "pos" counts the bytes taken from the input; the word arithmetic wraps as in C.
  datatype Dec = Dec(range: nat, code: nat, pos: nat, probs: Probs)

  function ByteAt(inp: seq<Byte>, i: nat): Byte {
    if i < |inp| then inp[i] else 0
  }

  function Normalize(inp: seq<Byte>, d: Dec): Dec {
    if d.range < TOP
    then Dec(d.range * 256, (d.code * 256 + ByteAt(inp, d.pos)) % WORD, d.pos + 1, d.probs)
    else d
  }

  function DecodeModel(inp: seq<Byte>, d0: Dec, ctx: nat): (r: (Bit, Dec))
    ensures r.0 == 0 || r.0 == 1
  {
    var d := Normalize(inp, d0);
    var bound := Split(d.range, ProbAt(d.probs, ctx));
    if d.code < bound
    then (0, Dec(bound, d.code, d.pos, Learn(d.probs, Model(ctx, 0))))
    else (1, Dec(d.range - bound, d.code - bound, d.pos, Learn(d.probs, Model(ctx, 1))))
  }

  // The sign bit of code - range decides, as in the branch-free C code.
  function DecodeDirect(inp: seq<Byte>, d0: Dec): (r: (Bit, Dec))
    ensures r.0 == 0 || r.0 == 1
  {
    var d := Normalize(inp, d0);
    var half := d.range / 2;
    var diff := (d.code - half) % WORD;
    if diff >= WORD / 2
    then (0, d.(range := half))
    else (1, d.(range := half, code := diff))
  }

  function DecodeOne(inp: seq<Byte>, d: Dec, x: Decision): (Bit, Dec) {
    match x
    case Model(ctx, _) => DecodeModel(inp, d, ctx)
    case Direct(_) => DecodeDirect(inp, d)
  }

  // The decoder state after asking for the decisions xs, if each answer is the bit in xs.
  function After(inp: seq<Byte>, d: Dec, xs: seq<Decision>): Option<Dec>
    decreases |xs|
  {
    if xs == [] then Some(d)
    else
      var (b, d') := DecodeOne(inp, d, xs[0]);
      if b == xs[0].bit then After(inp, d', xs[1..]) else None
  }

  lemma {:induction false} AfterConcat(inp: seq<Byte>, d: Dec, xs: seq<Decision>, ys: seq<Decision>)
    ensures After(inp, d, xs + ys) ==
            match After(inp, d, xs) { case None => None case Some(d') => After(inp, d', ys) }
    decreases |xs|
  {
    if xs == [] {
      assert xs + ys == ys;
    } else {
      assert (xs + ys)[1..] == xs[1..] + ys;
      AfterConcat(inp, DecodeOne(inp, d, xs[0]).1, xs[1..], ys);
    }
  }

  // ----- The decoder follows the encoder -----------------------------------------

  // The number a byte string stands for, most significant byte first.
  function BigEndian(s: seq<Byte>): nat {
    if s == [] then 0 else BigEndian(s[..|s| - 1]) * 256 + s[|s| - 1]
  }

  lemma BigEndianSnoc(s: seq<Byte>, b: Byte)
    ensures BigEndian(s + [b]) == BigEndian(s) * 256 + b
  {
    assert (s + [b])[..|s|] == s;
  }

  // The stream, cut after the bytes the decoder holds, lies in the encoder's interval.
  ghost predicate Contains(inp: seq<Byte>, c: Coder) {
    c.shifts + 5 <= |inp| && c.low <= BigEndian(inp[..c.shifts + 5]) < c.low + c.range
  }

  ghost predicate Sync(inp: seq<Byte>, e: Enc, d: Dec) {
    && Contains(inp, e.c)
    && 0x10000 < d.range < WORD && d.code < d.range
    && var n := Normalize(inp, d);
      n == Dec(e.c.range, BigEndian(inp[..e.c.shifts + 5]) - e.c.low, e.c.shifts + 5, e.probs)
  }

  // A stream inside the interval after a decision was inside the interval before it.
  lemma ContainsBefore(inp: seq<Byte>, e: Enc, x: Decision)
    requires Ready(e.c) && Contains(inp, EncodeOne(e, x).c)
    ensures Contains(inp, e.c) && Contains(inp, Narrow(e.c, e.probs, x))
  {
    var n := Narrow(e.c, e.probs, x);
    if x.Model? { SplitBounds(e.c.range, ProbAt(e.probs, x.ctx)); }
    if n.range < TOP {
      var k := n.shifts + 5;
      assert inp[..k + 1][..k] == inp[..k];
      assert BigEndian(inp[..k + 1]) == BigEndian(inp[..k]) * 256 + inp[k];
    }
  }

  // One decoding step on a normalised state, with v the stream's value so far.
  lemma DecodeOneAligned(inp: seq<Byte>, e: Enc, d: Dec, x: Decision, v: nat)
    requires Ready(e.c) && d.range == e.c.range && d.code == v - e.c.low && d.probs == e.probs
    requires var n := Narrow(e.c, e.probs, x); n.low <= v < n.low + n.range
    ensures var n := Narrow(e.c, e.probs, x);
      DecodeOne(inp, d, x) == (x.bit, Dec(n.range, v - n.low, d.pos, Learn(e.probs, x)))
  {
    if x.Model? { SplitBounds(e.c.range, ProbAt(e.probs, x.ctx)); }
  }

  // The decoder's lazy normalisation brings it level with the encoder's eager one.
  lemma Resync(inp: seq<Byte>, n: Coder, probs: Probs, d: Dec, v: nat)
    requires 0x10000 < n.range < WORD && n.low <= v < n.low + n.range
    requires n.shifts + 5 <= |inp| && v == BigEndian(inp[..n.shifts + 5])
    requires d == Dec(n.range, v - n.low, n.shifts + 5, probs)
    requires Contains(inp, Renorm(n))
    ensures Sync(inp, Enc(Renorm(n), probs), d)
  {
    if n.range < TOP {
      var k := n.shifts + 5;
      assert inp[..k + 1][..k] == inp[..k];
      assert BigEndian(inp[..k + 1]) == v * 256 + inp[k];
    }
  }

  lemma DecodeOneSync(inp: seq<Byte>, e: Enc, d: Dec, x: Decision)
    requires Ready(e.c) && Sync(inp, e, d)
    requires Contains(inp, EncodeOne(e, x).c)
    ensures DecodeOne(inp, d, x).0 == x.bit
    ensures Sync(inp, EncodeOne(e, x), DecodeOne(inp, d, x).1)
  {
    ContainsBefore(inp, e, x);
    var v := BigEndian(inp[..e.c.shifts + 5]);
    var a := Normalize(inp, d);
    DecodeOneAligned(inp, e, a, x, v);
    DecodeNormalized(inp, d, x);
    NarrowBounds(e, x);
    Resync(inp, Narrow(e.c, e.probs, x), Learn(e.probs, x), DecodeOne(inp, d, x).1, v);
  }

  lemma DecodeNormalized(inp: seq<Byte>, d: Dec, x: Decision)
    requires d.range > 0x10000
    ensures DecodeOne(inp, Normalize(inp, d), x) == DecodeOne(inp, d, x)
  {
    assert Normalize(inp, Normalize(inp, d)) == Normalize(inp, d);
  }

  lemma NarrowBounds(e: Enc, x: Decision)
    requires Ready(e.c)
    ensures 0x10000 < Narrow(e.c, e.probs, x).range < WORD
  {
    if x.Model? { SplitBounds(e.c.range, ProbAt(e.probs, x.ctx)); }
  }

  // Containment after all decisions gives containment at every earlier point.
  lemma {:induction false} ContainsStart(inp: seq<Byte>, e: Enc, xs: seq<Decision>)
    requires Ready(e.c) && Contains(inp, EncodeAll(e, xs).c)
    ensures Contains(inp, e.c)
    decreases |xs|
  {
    if xs != [] {
      EncodeOneReady(e, xs[0]);
      ContainsStart(inp, EncodeOne(e, xs[0]), xs[1..]);
      ContainsBefore(inp, e, xs[0]);
    }
  }

  // Main result of this module: every decision comes back, and the two sides stay
  // in step, probabilities included.
  lemma {:induction false} DecodeAll(inp: seq<Byte>, e: Enc, d: Dec, xs: seq<Decision>)
    requires Ready(e.c) && Sync(inp, e, d) && Contains(inp, EncodeAll(e, xs).c)
    ensures After(inp, d, xs).Some?
    ensures Ready(EncodeAll(e, xs).c)
    ensures Sync(inp, EncodeAll(e, xs), After(inp, d, xs).value)
    decreases |xs|
  {
    if xs != [] {
      var e1 := EncodeOne(e, xs[0]);
      EncodeOneReady(e, xs[0]);
      ContainsStart(inp, e1, xs[1..]);
      DecodeOneSync(inp, e, d, xs[0]);
      DecodeAll(inp, e1, DecodeOne(inp, d, xs[0]).1, xs[1..]);
    }
  }
}
