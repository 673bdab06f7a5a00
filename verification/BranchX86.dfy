// The x86 branch filter: relative call and jump targets become absolute and back, in place,
// with decisions that look ahead at bytes that are rewritten later.

module BranchX86 {
  import opened Words

  predicate Test86MSByte(b: int) { b == 0 || b == 0xFF }

  // Call and jump: the lowest bit is ignored.
  predicate IsOpcode(b: Byte) { b - b % 2 == 0xE8 }

  // Bit i of a mask stands for an opcode byte that was left alone i + 1 places earlier.
  predicate AllowedStatus(mask: nat) { mask == 0 || mask == 1 || mask == 2 || mask == 4 }

  function BitNumber(mask: nat): (n: nat)
    ensures n <= 3
  {
    if mask == 0 then 0 else if mask == 1 then 1 else if mask < 4 then 2 else 3
  }

  function ShiftMask(mask: nat, places: nat): (r: nat)
    ensures r < 8
  {
    if places == 0 then mask % 8 else if places == 1 then 2 * mask % 8 else if places == 2 then 4 * mask % 8 else 0
  }

  function AfterMiss(mask: nat): (r: nat)
    ensures r < 8
  {
    ShiftMask(mask, 1) + 1
  }

  // ----- One operand ---------------------------------------------------------------------

  function Operand(p1: Byte, p2: Byte, p3: Byte, p4: Byte): (v: nat)
    ensures v < WORD
  {
    p4 * 0x100_0000 + p3 * 0x1_0000 + p2 * 0x100 + p1
  }

  function ByteAt(v: nat, size: nat): Byte
    requires size >= 1
  {
    v / size % 256
  }

  // Bytes of an operand that is about to be stored: the top byte repeats bit 24.
  function TopByte(v: nat): Byte { if v / 0x100_0000 % 2 == 1 then 0xFF else 0 }

  function Stored(v: nat): nat {
    Operand(ByteAt(v, 1), ByteAt(v, 0x100), ByteAt(v, 0x1_0000), TopByte(v))
  }

  function Move(src: nat, at: int, encoding: bool): (dest: nat)
    ensures dest < WORD
  {
    if encoding then (at + src) % WORD else (src - at) % WORD
  }

  // One more than the bits below and at the watched byte: the byte of the operand by which an
  // opcode that was left alone earlier was judged.
  function LowSize(mask: nat): (size: nat)
    ensures size == 0x100_0000 || size == 0x1_0000 || size == 0x100
  {
    if BitNumber(mask) <= 1 then 0x100_0000 else if BitNumber(mask) == 2 then 0x1_0000 else 0x100
  }

  function Watched(v: nat, mask: nat): Byte { ByteAt(v, LowSize(mask) / 256) }

  // Inverts the low bits.
  function Flip(v: nat, mask: nat): (r: nat)
    ensures r < v + LowSize(mask)
  {
    v - v % LowSize(mask) + (LowSize(mask) - 1 - v % LowSize(mask))
  }

  function Moved(src: nat, at: int, mask: nat, encoding: bool): (dest: nat)
    ensures dest < WORD
  {
    var dest := Move(src, at, encoding);
    if mask == 0 || !Test86MSByte(Watched(dest, mask)) then dest else Move(Flip(dest, mask), at, encoding)
  }

  // The watched byte is the top of the low part.
  lemma WatchedTop(v: nat, mask: nat)
    ensures Watched(v, mask) == v % LowSize(mask) / (LowSize(mask) / 256)
  {
    DivThenMod(v, LowSize(mask) / 256, 256);
  }

  lemma WatchedLow(v: nat, mask: nat)
    ensures var size, low := LowSize(mask), v % LowSize(mask);
      Test86MSByte(Watched(v, mask)) <==> low < size / 256 || low >= size - size / 256
  {
    WatchedTop(v, mask);
    hide Watched;
    if LowSize(mask) == 0x100_0000 {
    } else if LowSize(mask) == 0x1_0000 {
    } else {
    }
  }

  lemma FlipLow(v: nat, mask: nat)
    ensures Flip(v, mask) % LowSize(mask) == LowSize(mask) - 1 - v % LowSize(mask)
    ensures Flip(Flip(v, mask), mask) == v
    ensures v < WORD ==> Flip(v, mask) < WORD
  {
    var size := LowSize(mask);
    ModUnique(Flip(v, mask), size, v / size, size - 1 - v % size);
    if v < WORD {
      assert v / size < WORD / size;
    }
  }

  lemma FlipShows(v: nat, mask: nat)
    ensures Test86MSByte(Watched(Flip(v, mask), mask)) == Test86MSByte(Watched(v, mask))
  {
    FlipLow(v, mask);
    WatchedLow(v, mask);
    WatchedLow(Flip(v, mask), mask);
    hide Watched, Flip, LowSize;
  }

  lemma MoveIs(src: nat, at: int, encoding: bool, size: nat, k: nat)
    requires size > 0 && k > 0 && size * k == WORD
    ensures encoding ==> Move(src, at, encoding) % size == (src % size + at) % size
    ensures !encoding ==> Move(src, at, encoding) % size == (src % size - at) % size
  {
    ModMultiple(at + src, size, k);
    ModMultiple(src - at, size, k);
    ModPart(src, at, size);
    ModPart(src, -at, size);
  }

  lemma MoveLow(src: nat, at: int, mask: nat, encoding: bool)
    ensures encoding ==> Move(src, at, encoding) % LowSize(mask) == (src % LowSize(mask) + at) % LowSize(mask)
    ensures !encoding ==> Move(src, at, encoding) % LowSize(mask) == (src % LowSize(mask) - at) % LowSize(mask)
  {
    hide Move;
    MoveIs(src, at, encoding, LowSize(mask), WORD / LowSize(mask));
  }

  // One flip is enough: it leaves the low part inverted, and that watched byte is fine again.
  lemma FlippedOnce(src: nat, at: int, mask: nat, encoding: bool)
    requires !Test86MSByte(Watched(src, mask)) && Test86MSByte(Watched(Move(src, at, encoding), mask))
    ensures var again := Move(Flip(Move(src, at, encoding), mask), at, encoding);
      && again % LowSize(mask) == LowSize(mask) - 1 - src % LowSize(mask)
      && !Test86MSByte(Watched(again, mask))
  {
    var dest := Move(src, at, encoding);
    var again := Move(Flip(dest, mask), at, encoding);
    MoveLow(src, at, mask, encoding);
    FlipLow(dest, mask);
    MoveLow(Flip(dest, mask), at, mask, encoding);
    WatchedLow(src, mask);
    WatchedLow(again, mask);
    hide Watched, Move, Flip, LowSize;
    var size, low := LowSize(mask), src % LowSize(mask);
    var k: int := if encoding then at else -at;
    Opposite(low, k, size);
  }

  lemma Opposite(low: int, k: int, size: int)
    requires 0 <= low < size
    ensures (size - 1 - (low + k) % size + k) % size == size - 1 - low
  {
    ModUnique(size - 1 - (low + k) % size + k, size, (low + k) / size, size - 1 - low);
  }

  lemma MoveBack(src: nat, at: int, encoding: bool)
    requires src < WORD
    ensures Move(Move(src, at, encoding), at, !encoding) == src
  {}

  // Whatever the mask, moving back restores the operand.
  lemma MovedTwice(src: nat, at: int, mask: nat, encoding: bool)
    requires src < WORD && (mask != 0 ==> !Test86MSByte(Watched(src, mask)))
    ensures Moved(Moved(src, at, mask, encoding), at, mask, !encoding) == src
  {
    hide Move, Watched, Flip, Test86MSByte, LowSize;
    var dest := Move(src, at, encoding);
    MoveBack(src, at, encoding);
    if mask != 0 && Test86MSByte(Watched(dest, mask)) {
      FlipLow(dest, mask);
      FlipShows(dest, mask);
      MoveBack(Flip(dest, mask), at, encoding);
    }
  }

  // ----- Only the low 25 bits matter -----------------------------------------------------

  function Low25(v: nat): nat { v % 0x200_0000 }

  // An operand, its bytes, and what is stored of it.
  lemma Parts(v: nat)
    ensures var b0, b1, b2, rest := ByteAt(v, 1), ByteAt(v, 0x100), ByteAt(v, 0x1_0000), v / 0x100_0000;
      && v == rest * 0x100_0000 + b2 * 0x1_0000 + b1 * 0x100 + b0
      && Low25(v) == rest % 2 * 0x100_0000 + b2 * 0x1_0000 + b1 * 0x100 + b0
      && Low25(Stored(v)) == Low25(v)
  {
    var a := v / 0x100;
    var c := a / 0x100;
    assert v / 0x1_0000 == c && v / 0x100_0000 == c / 0x100;
  }

  lemma StoredLow(v: nat, w: nat)
    requires Low25(v) == Low25(w)
    ensures Stored(v) == Stored(w)
  {
    Parts(v);
    Parts(w);
    hide Low25, ByteAt;
  }

  lemma StoredSame(p1: Byte, p2: Byte, p3: Byte, p4: Byte)
    requires Test86MSByte(p4)
    ensures Stored(Operand(p1, p2, p3, p4)) == Operand(p1, p2, p3, p4)
  {
    OperandDigits(p1, p2, p3, p4);
    hide ByteAt, TopByte;
  }

  lemma OperandDigits(p1: Byte, p2: Byte, p3: Byte, p4: Byte)
    ensures var v := Operand(p1, p2, p3, p4);
      && ByteAt(v, 1) == p1 && ByteAt(v, 0x100) == p2 && ByteAt(v, 0x1_0000) == p3
      && (Test86MSByte(p4) ==> TopByte(v) == p4)
  {
    FourDigits(p1, p2, p3, p4);
  }

  lemma MoveLow25(v: nat, w: nat, at: int, encoding: bool)
    requires Low25(v) == Low25(w)
    ensures Low25(Move(v, at, encoding)) == Low25(Move(w, at, encoding))
  {
    hide Move;
    MoveIs(v, at, encoding, 0x200_0000, 0x80);
    MoveIs(w, at, encoding, 0x200_0000, 0x80);
  }

  lemma WatchedLow25(v: nat, w: nat, mask: nat)
    requires Low25(v) == Low25(w)
    ensures Watched(v, mask) == Watched(w, mask) && Low25(Flip(v, mask)) == Low25(Flip(w, mask))
  {
    var size, k := LowSize(mask), v / 0x200_0000 - w / 0x200_0000;
    ModMultiple(v, size, 0x200_0000 / size);
    ModMultiple(w, size, 0x200_0000 / size);
    WatchedTop(v, mask);
    WatchedTop(w, mask);
    hide Watched, LowSize;
    assert Flip(v, mask) == Flip(w, mask) + 0x200_0000 * k;
    ModShift(Flip(w, mask), k, 0x200_0000);
  }

  lemma MovedLow25(v: nat, w: nat, at: int, mask: nat, encoding: bool)
    requires Low25(v) == Low25(w)
    ensures Low25(Moved(v, at, mask, encoding)) == Low25(Moved(w, at, mask, encoding))
  {
    hide Low25, Move, Watched, Flip, LowSize;
    var d, e := Move(v, at, encoding), Move(w, at, encoding);
    MoveLow25(v, w, at, encoding);
    WatchedLow25(d, e, mask);
    MoveLow25(Flip(d, mask), Flip(e, mask), at, encoding);
  }

  // An operand that was moved and stored is moved back to exactly what it was.
  lemma MovedBack(p1: Byte, p2: Byte, p3: Byte, p4: Byte, at: int, mask: nat, encoding: bool)
    requires Test86MSByte(p4) && (mask != 0 ==> !Test86MSByte(Watched(Operand(p1, p2, p3, p4), mask)))
    ensures var src := Operand(p1, p2, p3, p4);
      Stored(Moved(Stored(Moved(src, at, mask, encoding)), at, mask, !encoding)) == src
  {
    hide Moved, Low25, Stored, Watched, Operand;
    var src := Operand(p1, p2, p3, p4);
    var e := Moved(src, at, mask, encoding);
    Parts(e);
    MovedLow25(Stored(e), e, at, mask, !encoding);
    MovedTwice(src, at, mask, encoding);
    StoredLow(Moved(Stored(e), at, mask, !encoding), src);
    StoredSame(p1, p2, p3, p4);
  }

  // ----- The filter over a buffer ----------------------------------------------------------

  datatype Choice = Skip | Miss | Operate

  // What is done with the byte at the front: not an opcode, an opcode left alone, or one whose
  // operand is moved.
  function Choose(d: seq<Byte>, mask: nat): Choice
    requires |d| >= 5
  {
    if !IsOpcode(d[0]) then Skip
    else if mask != 0 && (!AllowedStatus(mask) || Test86MSByte(d[4 - BitNumber(mask)])) then Miss
    else if Test86MSByte(d[4]) then Operate
    else Miss
  }

  function Bytes4(v: nat): (s: seq<Byte>)
    ensures |s| == 4
  {
    [ByteAt(v, 1), ByteAt(v, 0x100), ByteAt(v, 0x1_0000), TopByte(v)]
  }

  function Converted(d: seq<Byte>, at: int, mask: nat, encoding: bool): (s: seq<Byte>)
    requires |d| >= 5
    ensures |s| == 5
  {
    [d[0]] + Bytes4(Moved(Operand(d[1], d[2], d[3], d[4]), at, mask, encoding))
  }

  // The new bytes, how many were passed, and the mask for the byte after them.
  datatype Result = Result(out: seq<Byte>, pos: nat, mask: nat)

  function Before(head: seq<Byte>, r: Result): Result { Result(head + r.out, |head| + r.pos, r.mask) }

  // The filter from a given place on: at is the address after an opcode at the front.
  function Walk(d: seq<Byte>, at: int, mask: nat, encoding: bool): (r: Result)
    ensures |r.out| == |d| && r.pos <= |d|
    decreases |d|
  {
    if |d| < 5 then Result(d, 0, mask)
    else
      match Choose(d, mask)
      case Skip => Before([d[0]], Walk(d[1..], at + 1, ShiftMask(mask, 1), encoding))
      case Miss => Before([d[0]], Walk(d[1..], at + 1, AfterMiss(mask), encoding))
      case Operate => Before(Converted(d, at, mask, encoding), Walk(d[5..], at + 5, 0, encoding))
  }

  lemma WatchedByte(d: seq<Byte>, mask: nat)
    requires |d| >= 5 && (mask == 1 || mask == 2 || mask == 4)
    ensures Watched(Operand(d[1], d[2], d[3], d[4]), mask) == d[4 - BitNumber(mask)]
  {
    var v := Operand(d[1], d[2], d[3], d[4]);
    var p2: int, p3: int, p4: int := d[2], d[3], d[4];
    assert v / 0x1_0000 == p4 * 0x100 + p3 && v / 0x100 == p4 * 0x1_0000 + p3 * 0x100 + p2;
  }

  // What conversion does to the bytes the decisions look at, and how it is undone.
  lemma ConvertedBack(d: seq<Byte>, at: int, mask: nat, encoding: bool)
    requires |d| >= 5 && Choose(d, mask) == Operate
    ensures var c := Converted(d, at, mask, encoding);
      && Choose(c, mask) == Operate && Converted(c, at, mask, !encoding) == d[..5]
      && (mask != 0 ==> !Test86MSByte(c[4 - BitNumber(mask)]))
  {
    var c := Converted(d, at, mask, encoding);
    var src := Operand(d[1], d[2], d[3], d[4]);
    var dest := Moved(src, at, mask, encoding);
    assert Operand(c[1], c[2], c[3], c[4]) == Stored(dest);
    if mask != 0 {
      WatchedByte(d, mask);
      WatchedByte(c, mask);
      WatchedFine(src, at, mask, encoding);
      Parts(dest);
      WatchedLow25(Stored(dest), dest, mask);
    }
    MovedBack(d[1], d[2], d[3], d[4], at, mask, encoding);
    OperandBytes(d[1], d[2], d[3], d[4]);
    StoredBytes(Moved(Stored(dest), at, mask, !encoding), src);
    hide Moved, Stored, Operand, Watched, ByteAt, TopByte;
    assert d[..5] == [d[0], d[1], d[2], d[3], d[4]];
  }

  lemma WatchedFine(src: nat, at: int, mask: nat, encoding: bool)
    requires mask != 0 && !Test86MSByte(Watched(src, mask))
    ensures !Test86MSByte(Watched(Moved(src, at, mask, encoding), mask))
  {
    hide Watched, Move, Flip;
    if Test86MSByte(Watched(Move(src, at, encoding), mask)) {
      FlippedOnce(src, at, mask, encoding);
    }
  }

  lemma OperandBytes(p1: Byte, p2: Byte, p3: Byte, p4: Byte)
    requires Test86MSByte(p4)
    ensures Bytes4(Operand(p1, p2, p3, p4)) == [p1, p2, p3, p4]
  {
    OperandDigits(p1, p2, p3, p4);
    hide ByteAt, TopByte, Operand;
  }

  lemma StoredBytes(v: nat, w: nat)
    requires Stored(v) == w
    ensures Bytes4(v) == Bytes4(w)
  {
    OperandBytes(ByteAt(v, 1), ByteAt(v, 0x100), ByteAt(v, 0x1_0000), TopByte(v));
  }

  predicate Bit(mask: nat, i: nat)
    requires i < 3
  {
    (if i == 0 then mask else if i == 1 then mask / 2 else mask / 4) % 2 == 1
  }

  // A byte by which an earlier opcode was judged may be rewritten later, but it stays on the
  // same side of the test.
  lemma {:induction false} JudgedByteKeeps(d: seq<Byte>, at: int, mask: nat, encoding: bool, i: nat)
    requires i < 3 && mask < 8 && Bit(mask, i) && 3 - i < |d|
    ensures Test86MSByte(Walk(d, at, mask, encoding).out[3 - i]) == Test86MSByte(d[3 - i])
    decreases |d|
  {
    hide Converted;
    if |d| >= 5 {
      match Choose(d, mask)
      case Skip => if i < 2 { JudgedByteKeeps(d[1..], at + 1, ShiftMask(mask, 1), encoding, i + 1); }
                   else { FirstByteKeeps(d[1..], at + 1, ShiftMask(mask, 1), encoding); }
      case Miss => if i < 2 { JudgedByteKeeps(d[1..], at + 1, AfterMiss(mask), encoding, i + 1); }
                   else { FirstByteKeeps(d[1..], at + 1, AfterMiss(mask), encoding); }
      case Operate => ConvertedBack(d, at, mask, encoding);
    }
  }

  lemma FirstByteKeeps(d: seq<Byte>, at: int, mask: nat, encoding: bool)
    requires d != []
    ensures Walk(d, at, mask, encoding).out[0] == d[0]
  {}

  // Main result: the filter in the other direction undoes it and ends in the same place and
  // state, although its decisions look at bytes that were rewritten.
  lemma {:induction false} Inverse(d: seq<Byte>, at: int, mask: nat, encoding: bool)
    requires mask < 8
    ensures var r := Walk(d, at, mask, encoding);
      Walk(r.out, at, mask, !encoding) == Result(d, r.pos, r.mask)
    decreases |d|
  {
    hide Converted;
    if |d| >= 5 {
      var r := Walk(d, at, mask, encoding);
      match Choose(d, mask)
      case Skip =>
        Inverse(d[1..], at + 1, ShiftMask(mask, 1), encoding);
        assert r.out[1..] == Walk(d[1..], at + 1, ShiftMask(mask, 1), encoding).out;
        assert d == [d[0]] + d[1..];
      case Miss =>
        Inverse(d[1..], at + 1, AfterMiss(mask), encoding);
        assert r.out[1..] == Walk(d[1..], at + 1, AfterMiss(mask), encoding).out;
        MissAgain(d, at, mask, encoding);
        assert d == [d[0]] + d[1..];
      case Operate =>
        Inverse(d[5..], at + 5, 0, encoding);
        var c := Converted(d, at, mask, encoding);
        ConvertedBack(d, at, mask, encoding);
        assert r.out[5..] == Walk(d[5..], at + 5, 0, encoding).out;
        assert r.out[..5] == c;
        FrontOnly(r.out, c, at, mask, !encoding);
        assert d == d[..5] + d[5..];
    }
  }

  lemma FrontOnly(d: seq<Byte>, c: seq<Byte>, at: int, mask: nat, encoding: bool)
    requires |d| >= 5 && c == d[..5]
    ensures Choose(d, mask) == Choose(c, mask) && Converted(d, at, mask, encoding) == Converted(c, at, mask, encoding)
  {}

  // An opcode that was left alone is left alone again.
  lemma MissAgain(d: seq<Byte>, at: int, mask: nat, encoding: bool)
    requires |d| >= 5 && mask < 8 && Choose(d, mask) == Miss
    ensures Choose(Walk(d, at, mask, encoding).out, mask) == Miss
  {
    var r := Walk(d, at, mask, encoding);
    var tail := Walk(d[1..], at + 1, AfterMiss(mask), encoding);
    if mask != 0 && AllowedStatus(mask) {
      JudgedByteKeeps(d, at, mask, encoding, BitNumber(mask) - 1);
    }
    JudgedByteKeeps(d[1..], at + 1, AfterMiss(mask), encoding, 0);
    assert r.out[4] == tail.out[3];
  }

  // ----- Several calls -----------------------------------------------------------------------

  // A second call that starts where the first one stopped, with the state it left, gives what
  // one call over everything gives.
  lemma {:induction false} InParts(d: seq<Byte>, n: nat, at: int, mask: nat, encoding: bool)
    requires n <= |d|
    ensures var r1 := Walk(d[..n], at, mask, encoding);
      && r1.out[r1.pos..] == d[r1.pos..n]
      && Walk(d, at, mask, encoding) ==
         Before(r1.out[..r1.pos], Walk(d[r1.pos..], at + r1.pos, r1.mask, encoding))
    decreases |d|
  {
    hide Walk, Converted, Choose;
    if n < 5 {
      WalkEnds(d[..n], at, mask, encoding);
      assert d[0..] == d;
    } else {
      var k, front, mask' := FirstStep(d, n, at, mask, encoding);
      InParts(d[k..], n - k, at + k, mask', encoding);
      assert d[k..][..n - k] == d[..n][k..];
      var q := Walk(d[k..n], at + k, mask', encoding);
      assert d[..n][k..] == d[k..n] && d[k..][q.pos..] == d[k + q.pos..];
      assert d[k..][q.pos..n - k] == d[k + q.pos..n];
      Glue(front, q, Walk(d[k + q.pos..], at + k + q.pos, q.mask, encoding));
    }
  }

  lemma WalkEnds(d: seq<Byte>, at: int, mask: nat, encoding: bool)
    requires |d| < 5
    ensures Walk(d, at, mask, encoding) == Result(d, 0, mask)
  {}

  // The first step of the filter is the same on a long enough beginning.
  lemma FirstStep(d: seq<Byte>, n: nat, at: int, mask: nat, encoding: bool)
      returns (k: nat, front: seq<Byte>, mask': nat)
    requires 5 <= n <= |d|
    ensures k == |front| && 1 <= k <= n
    ensures Walk(d, at, mask, encoding) == Before(front, Walk(d[k..], at + k, mask', encoding))
    ensures Walk(d[..n], at, mask, encoding) == Before(front, Walk(d[..n][k..], at + k, mask', encoding))
  {
    hide Converted;
    FrontOnly(d, d[..5], at, mask, encoding);
    FrontOnly(d[..n], d[..5], at, mask, encoding);
    match Choose(d, mask)
    case Skip => k, front, mask' := 1, [d[0]], ShiftMask(mask, 1);
    case Miss => k, front, mask' := 1, [d[0]], AfterMiss(mask);
    case Operate => k, front, mask' := 5, Converted(d, at, mask, encoding), 0;
  }

  lemma Glue(front: seq<Byte>, q: Result, rest: Result)
    requires q.pos <= |q.out|
    ensures Before(front, q).out[|front| + q.pos..] == q.out[q.pos..]
    ensures Before(front, Before(q.out[..q.pos], rest)) == Before(Before(front, q).out[..|front| + q.pos], rest)
  {
    assert (front + q.out)[..|front| + q.pos] == front + q.out[..q.pos];
    assert front + (q.out[..q.pos] + rest.out) == front + q.out[..q.pos] + rest.out;
  }

  // Addresses count modulo 2^32.
  lemma {:induction false} Wraps(d: seq<Byte>, at: int, k: int, mask: nat, encoding: bool)
    ensures Walk(d, at + WORD * k, mask, encoding) == Walk(d, at, mask, encoding)
    decreases |d|
  {
    if |d| >= 5 {
      match Choose(d, mask)
      case Skip => Wraps(d[1..], at + 1, k, ShiftMask(mask, 1), encoding);
      case Miss => Wraps(d[1..], at + 1, k, AfterMiss(mask), encoding);
      case Operate =>
        MovedWraps(Operand(d[1], d[2], d[3], d[4]), at, k, mask, encoding);
        Wraps(d[5..], at + 5, k, 0, encoding);
    }
  }

  lemma MoveWraps(src: nat, at: int, k: int, encoding: bool)
    ensures Move(src, at + WORD * k, encoding) == Move(src, at, encoding)
  {
    ModShift(at + src, k, WORD);
    ModShift(src - at, -k, WORD);
  }

  lemma MovedWraps(src: nat, at: int, k: int, mask: nat, encoding: bool)
    ensures Moved(src, at + WORD * k, mask, encoding) == Moved(src, at, mask, encoding)
  {
    hide Move, Flip, Watched;
    MoveWraps(src, at, k, encoding);
    MoveWraps(Flip(Move(src, at, encoding), mask), at, k, encoding);
  }

  // ----- In place ------------------------------------------------------------------------------

  // The rewriting loop takes at most two turns.
  method MoveOperand(operand: nat, at: nat, mask: nat, encoding: bool) returns (dest: nat, ghost turns: nat)
    requires operand < WORD && at < WORD && (mask != 0 ==> !Test86MSByte(Watched(operand, mask)))
    ensures dest == Moved(operand, at, mask, encoding) && 1 <= turns <= 2
  {
    hide Watched, Move, Flip;
    var src := operand;
    turns := 0;
    while true
      invariant turns <= 1 && (turns == 0 ==> src == operand)
      invariant turns == 1 ==> mask != 0 && src == Flip(Move(operand, at, encoding), mask)
      invariant turns == 1 ==> Test86MSByte(Watched(Move(operand, at, encoding), mask))
      decreases 2 - turns
    {
      dest := Move(src, at, encoding);
      turns := turns + 1;
      if mask == 0 {
        break;
      }
      var b := Watched(dest, mask);
      if !Test86MSByte(b) {
        break;
      }
      if turns == 2 {
        FlippedOnce(operand, at, mask, encoding);
      }
      src := Flip(dest, mask);
    }
  }

  // The mask a distance from the last opcode further on.
  function MaskAfter(prevMask: nat, gap: int): (m: nat)
    requires gap >= 1
    ensures m < 8
  {
    if gap > 3 then 0 else ShiftMask(prevMask, gap - 1)
  }

  // What has been done up to pos, and what is still to do, make up the whole.
  ghost predicate Going(whole: Result, d: seq<Byte>, pos: nat, at: int, mask: nat, encoding: bool) {
    pos <= |d| && whole == Before(d[..pos], Walk(d[pos..], at + pos, mask, encoding))
  }

  lemma GoOne(whole: Result, d: seq<Byte>, pos: nat, at: int, mask: nat, encoding: bool)
    requires Going(whole, d, pos, at, mask, encoding) && pos + 5 <= |d| && Choose(d[pos..], mask) != Operate
    ensures Going(whole, d, pos + 1, at,
                  if Choose(d[pos..], mask) == Skip then ShiftMask(mask, 1) else AfterMiss(mask), encoding)
  {
    hide Converted, Choose;
    assert d[pos..][1..] == d[pos + 1..] && d[..pos + 1] == d[..pos] + [d[pos]];
  }

  lemma GoFive(whole: Result, d: seq<Byte>, d': seq<Byte>, pos: nat, at: int, mask: nat, encoding: bool)
    requires Going(whole, d, pos, at, mask, encoding) && pos + 5 <= |d| && Choose(d[pos..], mask) == Operate
    requires |d'| == |d| && d'[..pos] == d[..pos] && d'[pos + 5..] == d[pos + 5..]
    requires d'[pos..pos + 5] == Converted(d[pos..], at + pos, mask, encoding)
    ensures Going(whole, d', pos + 5, at, 0, encoding)
  {
    hide Converted;
    assert d[pos..][5..] == d[pos + 5..] && d'[..pos + 5] == d[..pos] + d'[pos..pos + 5];
  }

  lemma MaskOneOn(prevMask: nat, gap: int)
    requires gap >= 1 && prevMask < 8
    ensures ShiftMask(MaskAfter(prevMask, gap), 1) == MaskAfter(prevMask, gap + 1)
  {
    assert prevMask in {0, 1, 2, 3, 4, 5, 6, 7};
  }

  // The bytes of the buffer that a call works on.
  ghost function Part(data: array<Byte>, start: nat, size: nat): seq<Byte>
    requires start + size <= data.Length
    reads data
  {
    data[start..start + size]
  }

  // Stores an operand after the opcode at place p.
  method Store(data: array<Byte>, p: nat, dest: nat)
    requires p + 5 <= data.Length
    modifies data
    ensures data[..] == old(data[..p + 1]) + Bytes4(dest) + old(data[p + 5..])
  {
    data[p + 4] := TopByte(dest);
    data[p + 3] := ByteAt(dest, 0x1_0000);
    data[p + 2] := ByteAt(dest, 0x100);
    data[p + 1] := ByteAt(dest, 1);
  }

  // The next opcode byte before the limit, or the limit if it is still ahead.
  method Scan(data: array<Byte>, start: nat, size: nat, from: nat, ghost prevMask: nat, ghost prevPos: int,
              ghost whole: Result, ghost at: int, encoding: bool) returns (p: nat)
    requires 5 <= size && start + size <= data.Length && prevPos < from && prevMask < 8
    requires Going(whole, Part(data, start, size), from, at, MaskAfter(prevMask, from - prevPos), encoding)
    ensures from <= p <= size && (p + 5 <= size ==> IsOpcode(data[start + p]))
    ensures Going(whole, Part(data, start, size), p, at, MaskAfter(prevMask, p - prevPos), encoding)
  {
    hide Going, Choose, MaskAfter, Walk;
    var limit := size - 4;
    p := from;
    GoingInside(whole, Part(data, start, size), from, at, MaskAfter(prevMask, p - prevPos), encoding);
    while p < limit && !IsOpcode(data[start + p])
      invariant from <= p <= size
      invariant Going(whole, Part(data, start, size), p, at, MaskAfter(prevMask, p - prevPos), encoding)
    {
      NotOpcode(Part(data, start, size)[p..], MaskAfter(prevMask, p - prevPos));
      GoOne(whole, Part(data, start, size), p, at, MaskAfter(prevMask, p - prevPos), encoding);
      MaskOneOn(prevMask, p - prevPos);
      p := p + 1;
    }
  }

  lemma GoingInside(whole: Result, d: seq<Byte>, pos: nat, at: int, mask: nat, encoding: bool)
    requires Going(whole, d, pos, at, mask, encoding)
    ensures pos <= |d|
  {}

  lemma NotOpcode(d: seq<Byte>, mask: nat)
    requires |d| >= 5 && !IsOpcode(d[0])
    ensures Choose(d, mask) == Skip
  {}

  // ----- The bytes that come out ---------------------------------------------------------------

  // The number that replaces an operand v, given the distance k to add and the mask: 25 bits, and if the
  // watched byte would be 0 or 0xFF, the bits up to it are inverted and k is added once more.
  function Replacement(v: nat, k: int, mask: nat): (w: nat)
    ensures w < 0x200_0000
  {
    var size := if mask == 1 then 0x100_0000 else if mask == 2 then 0x1_0000 else 0x100;
    var once := (v + k) % 0x200_0000;
    var top := once / (size / 256) % 256;
    if mask == 0 || (top != 0 && top != 0xFF) then once
    else (once - once % size + (size - 1 - once % size) + k) % 0x200_0000
  }

  lemma StoredNumber(v: nat)
    ensures var w, b := v % 0x200_0000, Bytes4(v);
      && b[0] == w % 0x100 && b[1] == w / 0x100 % 0x100 && b[2] == w / 0x1_0000 % 0x100
      && b[3] == if w < 0x100_0000 then 0 else 0xFF
  {
    LowByte(v, 1);
    LowByte(v, 0x100);
    LowByte(v, 0x1_0000);
    DivThenMod(v, 0x100_0000, 2);
    TwentyFive(v % 0x200_0000);
  }

  // The lowest 25 bits hold the lower three bytes.
  lemma LowByte(v: nat, size: nat)
    requires size == 1 || size == 0x100 || size == 0x1_0000
    ensures v / size % 0x100 == v % 0x200_0000 / size % 0x100
  {
    DivThenMod(v, size, 0x100);
    DivThenMod(v % 0x200_0000, size, 0x100);
    ModMultiple(v, size * 0x100, 0x200_0000 / (size * 0x100));
  }

  lemma TwentyFive(w: nat)
    requires w < 0x200_0000
    ensures w / 0x100_0000 == if w < 0x100_0000 then 0 else 1
  {}

  lemma MovedNumber(v: nat, at: int, mask: nat, encoding: bool)
    requires mask == 0 || mask == 1 || mask == 2 || mask == 4
    ensures Moved(v, at, mask, encoding) % 0x200_0000 == Replacement(v, if encoding then at else -at, mask)
  {
    hide Move, Watched, Flip, Low25;
    var k, dest := if encoding then at else -at, Move(v, at, encoding);
    MoveNumber(v, at, encoding);
    if mask != 0 {
      var once := dest % 0x200_0000;
      WatchedNumber(dest, mask);
      MoveNumber(Flip(dest, mask), at, encoding);
      ModPart(Flip(dest, mask), k, 0x200_0000);
      ModPart(once - once % LowSize(mask) + (LowSize(mask) - 1 - once % LowSize(mask)), k, 0x200_0000);
    }
  }

  lemma MoveNumber(v: nat, at: int, encoding: bool)
    ensures Move(v, at, encoding) % 0x200_0000 == (v + if encoding then at else -at) % 0x200_0000
  {
    hide Move;
    MoveIs(v, at, encoding, 0x200_0000, 0x80);
    ModPart(v, if encoding then at else -at, 0x200_0000);
  }

  lemma WatchedNumber(v: nat, mask: nat)
    requires mask == 1 || mask == 2 || mask == 4
    ensures var once, size := v % 0x200_0000, LowSize(mask);
      && Watched(v, mask) == once / (size / 256) % 256
      && Flip(v, mask) % 0x200_0000 == (once - once % size + (size - 1 - once % size)) % 0x200_0000
  {
    var once := v % 0x200_0000;
    WatchedLow25(v, once, mask);
  }

  // The first byte is a call or a jump, the fifth is 0 or 0xFF, and of the opcodes left alone before, if
  // any, there is one only, and the byte of the operand it was judged by is neither.
  predicate MovesFront(d: seq<Byte>, mask: nat)
    requires |d| >= 5
  {
    && (d[0] == 0xE8 || d[0] == 0xE9) && (d[4] == 0 || d[4] == 0xFF)
    && (|| mask == 0 || (mask == 1 && d[3] != 0 && d[3] != 0xFF) || (mask == 2 && d[2] != 0 && d[2] != 0xFF)
        || (mask == 4 && d[1] != 0 && d[1] != 0xFF))
  }

  // Main result: an opcode at the front whose operand is moved, in numbers.
  lemma FrontMoved(d: seq<Byte>, at: int, mask: nat, encoding: bool)
    requires |d| >= 5 && MovesFront(d, mask)
    ensures var r, rest := Walk(d, at, mask, encoding), Walk(d[5..], at + 5, 0, encoding);
      var a: nat, b: nat, c: nat, e: nat := d[1], d[2], d[3], d[4];
      var w := Replacement(e * 0x100_0000 + c * 0x1_0000 + b * 0x100 + a, if encoding then at else -at, mask);
      && r.out[0] == d[0] && r.out[1] == w % 0x100 && r.out[2] == w / 0x100 % 0x100
      && r.out[3] == w / 0x1_0000 % 0x100 && r.out[4] == (if w < 0x100_0000 then 0 else 0xFF)
      && r.out[5..] == rest.out && r.pos == 5 + rest.pos && r.mask == rest.mask
  {
    hide Moved, Replacement, Bytes4, IsOpcode;
    OpcodeBytes(d[0]);
    assert Choose(d, mask) == Operate;
    var dest := Moved(Operand(d[1], d[2], d[3], d[4]), at, mask, encoding);
    MovedNumber(Operand(d[1], d[2], d[3], d[4]), at, mask, encoding);
    StoredNumber(dest);
  }

  // An opcode that is left alone, and a byte that is no opcode.
  lemma FrontLeft(d: seq<Byte>, at: int, mask: nat, encoding: bool)
    requires |d| >= 5 && mask < 8
    requires !MovesFront(d, mask)
    ensures var r := Walk(d, at, mask, encoding);
      var rest := Walk(d[1..], at + 1, (2 * mask + if d[0] == 0xE8 || d[0] == 0xE9 then 1 else 0) % 8, encoding);
      r.out == [d[0]] + rest.out && r.pos == 1 + rest.pos && r.mask == rest.mask
  {
    hide Converted, Choose, ShiftMask, AfterMiss, MovesFront;
    LeftChoice(d, mask);
    MaskOn(mask);
  }

  lemma MaskOn(mask: nat)
    ensures ShiftMask(mask, 1) == 2 * mask % 8 && AfterMiss(mask) == (2 * mask + 1) % 8
  {}

  lemma LeftChoice(d: seq<Byte>, mask: nat)
    requires |d| >= 5 && mask < 8
    requires !MovesFront(d, mask)
    ensures Choose(d, mask) == if d[0] == 0xE8 || d[0] == 0xE9 then Miss else Skip
  {
    hide IsOpcode;
    OpcodeBytes(d[0]);
  }

  lemma OpcodeBytes(b: Byte)
    ensures IsOpcode(b) <==> b == 0xE8 || b == 0xE9
  {}

  // Data in which no call or jump can begin come out as they are.
  lemma {:induction false} Untouched(d: seq<Byte>, at: int, mask: nat, encoding: bool)
    requires mask < 8 && forall i :: 0 <= i < |d| - 4 ==> d[i] != 0xE8 && d[i] != 0xE9
    ensures var r := Walk(d, at, mask, encoding);
      && r.out == d && r.pos == (if |d| < 5 then 0 else |d| - 4)
      && r.mask == if r.pos == 0 then mask else if r.pos == 1 then 2 * mask % 8
                   else if r.pos == 2 then 4 * mask % 8 else 0
    decreases |d|
  {
    hide Walk, Converted;
    if |d| < 5 {
      WalkEnds(d, at, mask, encoding);
    } else {
      FrontLeft(d, at, mask, encoding);
      Untouched(d[1..], at + 1, 2 * mask % 8, encoding);
    }
  }

  // Converts size bytes from start on: a call of the filter.
  method Convert(data: array<Byte>, start: nat, size: nat, ip: nat, state: nat, encoding: bool)
      returns (pos: nat, state': nat)
    requires start + size <= data.Length && ip < WORD && state < WORD
    modifies data
    ensures var r := Walk(old(Part(data, start, size)), ip + 5, state % 8, encoding);
      && data[..] == old(data[..start]) + r.out + old(data[start + size..])
      && pos == r.pos && state' == if size < 5 then state else r.mask
    ensures size >= 5 && MovesFront(old(Part(data, start, size)), state % 8) ==>
      var a: nat, b: nat := old(data[start + 1]), old(data[start + 2]);
      var c: nat, e: nat := old(data[start + 3]), old(data[start + 4]);
      var v := e * 0x100_0000 + c * 0x1_0000 + b * 0x100 + a;
      var w := Replacement(v, if encoding then ip + 5 else -(ip + 5), state % 8);
      && data[start] == old(data[start]) && data[start + 1] == w % 0x100 && data[start + 2] == w / 0x100 % 0x100
      && data[start + 3] == w / 0x1_0000 % 0x100 && data[start + 4] == (if w < 0x100_0000 then 0 else 0xFF)
      && pos >= 5
    ensures (forall i :: start <= i < start + size - 4 ==> old(data[i]) != 0xE8 && old(data[i]) != 0xE9) ==>
      data[..] == old(data[..]) && pos == if size < 5 then 0 else size - 4
  {
    hide Going, Choose, ShiftMask, Walk, Converted, Moved, Replacement, MovesFront;
    var bufferPos: nat, prevMask: nat, prevPos: int := 0, state % 8, -1;
    ghost var at, before := ip + 5, data[..];
    ghost var whole := Walk(Part(data, start, size), at, state % 8, encoding);
    if size < 5 {
      WalkEnds(Part(data, start, size), at, state % 8, encoding);
      PartBack(data, start, size);
      return 0, state;
    }
    var base := (ip + 5) % WORD;
    GoStart(Part(data, start, size), at, state % 8, encoding);
    FrontOut(data[..], start, size, at, state % 8, encoding);
    var more := true;
    while more
      invariant prevPos < bufferPos <= size && prevMask < 8
      invariant Going(whole, Part(data, start, size), bufferPos, at, MaskAfter(prevMask, bufferPos - prevPos), encoding)
      invariant data[..start] == before[..start] && data[start + size..] == before[start + size..]
      invariant !more ==> bufferPos + 5 > size
      decreases more, size - bufferPos
    {
      bufferPos := Scan(data, start, size, bufferPos, prevMask, prevPos, whole, at, encoding);
      if bufferPos + 5 > size {
        more := false;
      } else {
        bufferPos, prevMask, prevPos :=
          ConvertOne(data, start, size, bufferPos, prevMask, prevPos, base, whole, at, encoding);
      }
    }
    var gap := bufferPos - prevPos;
    state' := if gap > 3 then 0 else ShiftMask(prevMask, gap - 1);
    pos := bufferPos;
    GoEnd(whole, Part(data, start, size), pos, at, MaskAfter(prevMask, gap), encoding);
    PartBack(data, start, size);
  }

  lemma PartBack(data: array<Byte>, start: nat, size: nat)
    requires start + size <= data.Length
    ensures data[..] == data[..start] + Part(data, start, size) + data[start + size..]
  {}

  // FrontMoved and Untouched, for a part of a buffer.
  lemma FrontOut(s: seq<Byte>, start: nat, size: nat, at: int, mask: nat, encoding: bool)
    requires start + size <= |s| && size >= 5 && mask < 8
    ensures var r := Walk(s[start..start + size], at, mask, encoding);
      var t := s[..start] + r.out + s[start + size..];
      && (MovesFront(s[start..start + size], mask) ==>
            var a: nat, b: nat, c: nat, e: nat := s[start + 1], s[start + 2], s[start + 3], s[start + 4];
            var v := e * 0x100_0000 + c * 0x1_0000 + b * 0x100 + a;
            var w := Replacement(v, if encoding then at else -at, mask);
            && t[start] == s[start] && t[start + 1] == w % 0x100 && t[start + 2] == w / 0x100 % 0x100
            && t[start + 3] == w / 0x1_0000 % 0x100 && t[start + 4] == (if w < 0x100_0000 then 0 else 0xFF)
            && r.pos >= 5)
      && ((forall i :: start <= i < start + size - 4 ==> s[i] != 0xE8 && s[i] != 0xE9) ==>
            t == s && r.pos == size - 4)
  {
    hide Walk, MovesFront, Replacement;
    var d := s[start..start + size];
    if MovesFront(d, mask) {
      FrontMoved(d, at, mask, encoding);
    }
    if forall i :: start <= i < start + size - 4 ==> s[i] != 0xE8 && s[i] != 0xE9 {
      assert forall i :: 0 <= i < |d| - 4 ==> d[i] == s[start + i];
      Untouched(d, at, mask, encoding);
    }
  }

  // One opcode: the rest of the outer loop's body.
  method ConvertOne(data: array<Byte>, start: nat, size: nat, at0: nat, prevMask0: nat, prevPos0: int, base: nat,
                    ghost whole: Result, ghost at: int, encoding: bool)
      returns (bufferPos: nat, prevMask: nat, prevPos: int)
    requires start + size <= data.Length && prevPos0 < at0 && at0 + 5 <= size && IsOpcode(data[start + at0])
    requires base < WORD && base == at % WORD
    requires Going(whole, Part(data, start, size), at0, at, MaskAfter(prevMask0, at0 - prevPos0), encoding)
    modifies data
    ensures at0 < bufferPos <= size && prevPos == at0 && prevMask < 8
    ensures Going(whole, Part(data, start, size), bufferPos, at, MaskAfter(prevMask, bufferPos - prevPos), encoding)
    ensures data[..start] == old(data[..start]) && data[start + size..] == old(data[start + size..])
  {
    hide Going, Walk, Moved;
    bufferPos, prevMask := at0, prevMask0;
    ghost var d, mask := Part(data, start, size), MaskAfter(prevMask0, at0 - prevPos0);
    var gap := bufferPos - prevPos0;
    prevPos := bufferPos;
    if gap > 3 {
      prevMask := 0;
    } else {
      prevMask := ShiftMask(prevMask, gap - 1);
      if prevMask != 0 {
        var b := data[start + bufferPos + (4 - BitNumber(prevMask))];
        if !AllowedStatus(prevMask) || Test86MSByte(b) {
          GoOne(whole, d, at0, at, mask, encoding);
          prevMask := AfterMiss(prevMask);
          bufferPos := bufferPos + 1;
          return;
        }
      }
    }
    var p := start + bufferPos;
    if Test86MSByte(data[p + 4]) {
      ConvertHere(data, start, size, at0, prevMask, base, whole, at, encoding);
      bufferPos := bufferPos + 5;
    } else {
      GoOne(whole, d, at0, at, mask, encoding);
      prevMask := AfterMiss(prevMask);
      bufferPos := bufferPos + 1;
    }
  }

  method ConvertHere(data: array<Byte>, start: nat, size: nat, bufferPos: nat, mask: nat, base: nat,
                     ghost whole: Result, ghost at: int, encoding: bool)
    requires start + size <= data.Length && bufferPos + 5 <= size && base < WORD && base == at % WORD
    requires Choose(Part(data, start, size)[bufferPos..], mask) == Operate
    requires Going(whole, Part(data, start, size), bufferPos, at, mask, encoding)
    modifies data
    ensures Going(whole, Part(data, start, size), bufferPos + 5, at, 0, encoding)
    ensures data[..start] == old(data[..start]) && data[start + size..] == old(data[start + size..])
  {
    hide Going, Walk, Moved, Operand, ByteAt, TopByte;
    var p := start + bufferPos;
    ghost var d := Part(data, start, size);
    var src := Operand(data[p + 1], data[p + 2], data[p + 3], data[p + 4]);
    if mask != 0 {
      WatchedByte(d[bufferPos..], mask);
    }
    var dest, turns := MoveOperand(src, (base + bufferPos) % WORD, mask, encoding);
    AddressWraps(src, at, bufferPos, mask, encoding);
    ghost var before := data[..];
    Store(data, p, dest);
    StoreParts(before, data[..], start, size, bufferPos, Bytes4(dest));
    GoFive(whole, d, Part(data, start, size), bufferPos, at, mask, encoding);
  }

  lemma StoreParts(a: seq<Byte>, b: seq<Byte>, start: nat, size: nat, k: nat, v: seq<Byte>)
    requires start + size <= |a| && k + 5 <= size && |v| == 4
    requires b == a[..start + k + 1] + v + a[start + k + 5..]
    ensures |b| == |a| && b[..start] == a[..start] && b[start + size..] == a[start + size..]
    ensures var d, e := a[start..start + size], b[start..start + size];
      e[..k] == d[..k] && e[k + 5..] == d[k + 5..] && e[k..k + 5] == [d[k]] + v
  {
    var p, end := start + k, start + size;
    Slice(a, start, end, 0, k);
    Slice(b, start, end, 0, k);
    Slice(a, start, end, k + 5, size);
    Slice(b, start, end, k + 5, size);
    Slice(b, start, end, k, k + 5);
    assert forall i :: 0 <= i <= p ==> b[i] == a[i];
    assert forall i :: p + 5 <= i < |a| ==> b[i] == a[i];
    assert b[p..p + 5] == [a[p]] + v;
    assert b[start..p] == a[start..p] && b[p + 5..end] == a[p + 5..end];
    assert b[..start] == a[..start] && b[end..] == a[end..];
  }

  lemma Slice(s: seq<Byte>, i: nat, j: nat, k: nat, l: nat)
    requires i <= j <= |s| && k <= l <= j - i
    ensures s[i..j][k..l] == s[i + k..i + l]
    ensures k == 0 ==> s[i..j][..l] == s[i..i + l]
    ensures l == j - i ==> s[i..j][k..] == s[i + k..j]
  {
    var t := s[i..j];
    assert forall x :: 0 <= x < l - k ==> t[k..l][x] == t[k + x] == s[i + (k + x)];
    assert t[k..l] == s[i + k..i + l];
    if l == j - i {
      assert s[i..j][k..] == s[i + k..j];
    }
  }

  lemma AddressWraps(src: nat, at: int, k: int, mask: nat, encoding: bool)
    ensures Moved(src, (at % WORD + k) % WORD, mask, encoding) == Moved(src, at + k, mask, encoding)
  {
    hide Moved;
    ModPart(at, k, WORD);
    MovedWraps(src, (at + k) % WORD, (at + k) / WORD, mask, encoding);
  }

  lemma GoStart(d: seq<Byte>, at: int, mask: nat, encoding: bool)
    requires mask < 8
    ensures Going(Walk(d, at, mask, encoding), d, 0, at, MaskAfter(mask, 1), encoding)
  {
    hide Walk;
    assert d[0..] == d && d[..0] == [];
    var r := Walk(d, at, mask, encoding);
    assert Before(d[..0], r) == r;
  }

  lemma GoEnd(whole: Result, d: seq<Byte>, pos: nat, at: int, mask: nat, encoding: bool)
    requires Going(whole, d, pos, at, mask, encoding) && pos + 5 > |d|
    ensures whole == Result(d, pos, mask)
  {
    assert d == d[..pos] + d[pos..];
  }

  // Main result: data filtered as it arrives, one call for each new end of the buffer, each from
  // where the last one stopped, equals the data filtered by one call.
  method ConvertInCalls(data: array<Byte>, ends: seq<nat>, ip: nat, state: nat, encoding: bool)
      returns (pos: nat, state': nat)
    requires ip < WORD && state < 8
    requires ends != [] && ends[|ends| - 1] == data.Length
    requires forall i, j :: 0 <= i <= j < |ends| ==> ends[i] <= ends[j]
    modifies data
    ensures Result(data[..], pos, state') == Walk(old(data[..]), ip + 5, state, encoding)
  {
    hide Walk;
    ghost var whole := Walk(data[..], ip + 5, state, encoding);
    pos, state' := 0, state;
    assert data[0..] == data[..] && data[..0] == [];
    assert Before(data[..0], whole) == whole;
    var i := 0;
    while i < |ends|
      invariant 0 <= i <= |ends| && pos <= data.Length && state' < 8
      invariant i == 0 ==> pos == 0
      invariant i > 0 ==> pos <= ends[i - 1] < pos + 5
      invariant Going(whole, data[..], pos, ip + 5, state', encoding)
    {
      pos, state' := NextCall(data, pos, ends[i], ip, state', encoding, whole);
      i := i + 1;
    }
    GoEnd(whole, data[..], pos, ip + 5, state', encoding);
  }

  method NextCall(data: array<Byte>, pos: nat, end: nat, ip: nat, state: nat, encoding: bool, ghost whole: Result)
      returns (pos': nat, state': nat)
    requires ip < WORD && state < 8 && pos <= end <= data.Length
    requires Going(whole, data[..], pos, ip + 5, state, encoding)
    modifies data
    ensures pos <= pos' <= end < pos' + 5 && state' < 8
    ensures Going(whole, data[..], pos', ip + 5, state', encoding)
  {
    hide Walk, Going;
    ghost var d := data[..];
    var n;
    n, state' := Convert(data, pos, end - pos, (ip + pos) % WORD, state, encoding);
    pos' := pos + n;
    if end - pos < 5 {
      WalkEnds(d[pos..end], (ip + pos) % WORD + 5, state, encoding);
    }
    assert data[..] == d[..pos] + Walk(d[pos..end], (ip + pos) % WORD + 5, state, encoding).out + d[end..];
    AtWraps(ip, pos);
    Wraps(d[pos..end], (ip + pos) % WORD + 5, (ip + pos) / WORD, state, encoding);
    WalkStops(d[pos..end], ip + 5 + pos, state, encoding);
    GoPart(whole, d, pos, end, ip + 5, state, encoding);
  }

  lemma AtWraps(ip: nat, pos: nat)
    ensures ip + 5 + pos == (ip + pos) % WORD + 5 + WORD * ((ip + pos) / WORD)
  {}

  lemma GoPart(whole: Result, d: seq<Byte>, pos: nat, end: nat, at: int, mask: nat, encoding: bool)
    requires Going(whole, d, pos, at, mask, encoding) && pos <= end <= |d|
    ensures var r := Walk(d[pos..end], at + pos, mask, encoding);
      Going(whole, d[..pos] + r.out + d[end..], pos + r.pos, at, r.mask, encoding)
  {
    hide Walk;
    var rest, n := d[pos..], end - pos;
    assert rest[..n] == d[pos..end];
    InParts(rest, n, at + pos, mask, encoding);
    var r := Walk(d[pos..end], at + pos, mask, encoding);
    var tail := Walk(rest[r.pos..], at + pos + r.pos, r.mask, encoding);
    var d' := d[..pos] + r.out + d[end..];
    CutThree(d[..pos], r.out, d[end..], r.pos);
    assert rest[r.pos..] == rest[r.pos..n] + d[end..];
    assert d[..pos] + (r.out[..r.pos] + tail.out) == d'[..pos + r.pos] + tail.out;
  }

  lemma CutThree(a: seq<Byte>, b: seq<Byte>, c: seq<Byte>, k: nat)
    requires k <= |b|
    ensures (a + b + c)[..|a| + k] == a + b[..k] && (a + b + c)[|a| + k..] == b[k..] + c
  {}

  lemma {:induction false} WalkStops(d: seq<Byte>, at: int, mask: nat, encoding: bool)
    requires mask < 8
    ensures var r := Walk(d, at, mask, encoding); |d| < r.pos + 5 && r.mask < 8
    decreases |d|
  {
    hide Converted;
    if |d| >= 5 {
      match Choose(d, mask)
      case Skip => WalkStops(d[1..], at + 1, ShiftMask(mask, 1), encoding);
      case Miss => WalkStops(d[1..], at + 1, AfterMiss(mask), encoding);
      case Operate => WalkStops(d[5..], at + 5, 0, encoding);
    }
  }
}
