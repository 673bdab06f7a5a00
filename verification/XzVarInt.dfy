/** The numbers of the .xz format (section 1.2): seven bits a byte, the lowest first, in as few bytes as will do. */
module XzVarInt {

  import opened RangeCoder
  import opened Words

  const LIMIT: nat := 0x8000_0000_0000_0000

  const MAX_SIZE: nat := 9

  function VarInt(v: nat): (s: seq<Byte>)
    ensures |s| >= 1
  {
    if v < 128 then [v] else [128 + v % 128] + VarInt(v / 128)
  }

  function Power(n: nat): (p: nat)
    ensures p >= 1
  {
    if n == 0 then 1 else 128 * Power(n - 1)
  }

  // The number that s begins with, and how long it is, when k bytes of it are already read.
  function ReadRest(s: seq<Byte>, k: nat): (r: Option<(nat, nat)>)
    ensures r.Some? ==> 1 <= r.value.1 <= |s|
    decreases |s|
  {
    if s == [] || k >= MAX_SIZE then None
    else if s[0] < 128 then (if s[0] == 0 && k > 0 then None else Some((s[0], 1)))
    else
      match ReadRest(s[1..], k + 1)
      case None => None
      case Some((v, n)) => Some((s[0] - 128 + 128 * v, n + 1))
  }

  function Read(s: seq<Byte>): (r: Option<(nat, nat)>)
    ensures r.Some? ==> 1 <= r.value.1 <= |s|
  {
    ReadRest(s, 0)
  }

  lemma PowerLimit()
    ensures Power(MAX_SIZE) == LIMIT
  {
    assert Power(3) == 0x20_0000 && Power(6) == 0x400_0000_0000;
  }

  lemma {:induction false} ReadRestExact(s: seq<Byte>, k: nat, v: nat, n: nat)
    requires k <= MAX_SIZE
    ensures ReadRest(s, k) == Some((v, n)) <==>
            n == |VarInt(v)| && VarInt(v) <= s && v < Power(MAX_SIZE - k) && (k > 0 ==> v > 0)
    decreases |s|
  {
    if s == [] || k == MAX_SIZE {
    } else if s[0] < 128 {
      assert VarInt(v) <= s <==> v == s[0];
    } else {
      if v >= 128 && n > 0 {
        ReadRestExact(s[1..], k + 1, v / 128, n - 1);
        Continued(s, v);
        assert v < Power(MAX_SIZE - k) <==> v / 128 < Power(MAX_SIZE - k - 1);
      }
      if ReadRest(s[1..], k + 1).Some? {
        var (w, m) := ReadRest(s[1..], k + 1).value;
        ReadRestExact(s[1..], k + 1, w, m);
        assert (s[0] - 128 + 128 * w) / 128 == w;
      }
    }
  }

  lemma Continued(s: seq<Byte>, v: nat)
    requires s != [] && s[0] >= 128 && v >= 128
    ensures VarInt(v) <= s <==> s[0] == 128 + v % 128 && VarInt(v / 128) <= s[1..]
  {
    var t := VarInt(v / 128);
    assert VarInt(v) == [128 + v % 128] + t;
    if VarInt(v) <= s {
      assert s[..|t| + 1] == VarInt(v);
      assert s[1..][..|t|] == VarInt(v)[1..];
    }
    if s[0] == 128 + v % 128 && t <= s[1..] {
      assert s[..|t| + 1] == [s[0]] + s[1..][..|t|];
    }
  }

  lemma {:induction false} VarIntShort(v: nat, k: nat)
    requires v < Power(k) && k >= 1
    ensures |VarInt(v)| <= k
    decreases k
  {
    if v >= 128 {
      assert k > 1 && v / 128 < Power(k - 1);
      VarIntShort(v / 128, k - 1);
    }
  }

  // Main result: what is read are exactly the shortest forms of the numbers below 2^63.
  lemma ReadExact(s: seq<Byte>, v: nat, n: nat)
    ensures Read(s) == Some((v, n)) <==> v < LIMIT && VarInt(v) <= s && n == |VarInt(v)|
  {
    PowerLimit();
    ReadRestExact(s, 0, v, n);
  }

  // So no number is the beginning of another.
  lemma VarIntsDiffer(s: seq<Byte>, v: nat, w: nat)
    requires v < LIMIT && w < LIMIT && VarInt(v) <= s && VarInt(w) <= s
    ensures v == w
  {
    ReadExact(s, v, |VarInt(v)|);
    ReadExact(s, w, |VarInt(w)|);
  }

  // ----- The loops -----------------------------------------------------------------------------

  // All groups of v that are not 0, each marked as not the last.
  function Marked(v: nat): seq<Byte> {
    if v == 0 then [] else [128 + v % 128] + Marked(v / 128)
  }

  lemma {:induction false} MarkedLast(v: nat)
    ensures var s: seq<Byte> := [128 + v % 128] + Marked(v / 128);
      s[|s| - 1] >= 128 && VarInt(v) == s[..|s| - 1] + [s[|s| - 1] - 128]
    decreases v
  {
    var s: seq<Byte> := [128 + v % 128] + Marked(v / 128);
    if v >= 128 {
      MarkedLast(v / 128);
      assert s[1..] == [128 + v / 128 % 128] + Marked(v / 128 / 128);
    }
  }

  method WriteVarInt(v0: nat) returns (buf: seq<Byte>)
    ensures buf == VarInt(v0)
  {
    var v: nat := v0 / 128;
    buf := [128 + v0 % 128];
    while v != 0
      invariant buf != [] && buf + Marked(v) == [128 + v0 % 128] + Marked(v0 / 128)
      decreases v
    {
      assert buf + ([128 + v % 128] + Marked(v / 128)) == buf + [128 + v % 128] + Marked(v / 128);
      buf := buf + [128 + v % 128];
      v := v / 128;
    }
    MarkedLast(v0);
    assert buf + [] == buf;
    buf := buf[|buf| - 1 := buf[|buf| - 1] - 128];
  }

  // With the bits of a further byte put above those of i bytes.
  function Plus(value: nat, i: nat, b: nat): nat {
    value + Power(i) * b
  }

  // What i bytes and the number after them make.
  function Join(value: nat, i: nat, r: Option<(nat, nat)>): Option<(nat, nat)> {
    match r
    case None => None
    case Some((v, n)) => Some((Plus(value, i, v), i + n))
  }

  lemma JoinStep(value: nat, i: nat, s: seq<Byte>)
    requires s != [] && i < MAX_SIZE && s[0] >= 128
    ensures Join(value, i, ReadRest(s, i)) == Join(Plus(value, i, s[0] - 128), i + 1, ReadRest(s[1..], i + 1))
  {
    match ReadRest(s[1..], i + 1)
    case None =>
    case Some((v, n)) => Distributes(Power(i), s[0] - 128, v);
  }

  lemma Distributes(p: nat, a: nat, v: nat)
    ensures p * (a + 128 * v) == p * a + 128 * p * v
  {}

  lemma JoinLast(value: nat, i: nat, s: seq<Byte>)
    requires s != [] && i < MAX_SIZE && s[0] < 128
    ensures Join(value, i, ReadRest(s, i)) ==
            if s[0] == 0 && i > 0 then None else Some((Plus(value, i, s[0]), i + 1))
  {}

  lemma JoinEnd(value: nat, i: nat, s: seq<Byte>)
    requires s == [] || i >= MAX_SIZE
    ensures Join(value, i, ReadRest(s, i)) == None
  {}

  // The number at the beginning of s; size is 0 if there is none.
  method ReadVarInt(s: seq<Byte>) returns (size: nat, value: nat)
    ensures if size == 0 then Read(s) == None else Read(s) == Some((value, size))
  {
    hide Read, ReadRest, Join, Plus;
    size, value := 0, 0;
    var limit := if |s| > MAX_SIZE then MAX_SIZE else |s|;
    var i: nat := 0;
    JoinNone(s);
    while i < limit
      invariant i <= limit && Read(s) == Join(value, i, ReadRest(s[i..], i))
    {
      var b := s[i];
      if b < 128 {
        JoinLast(value, i, s[i..]);
        value := Plus(value, i, b);
        size := if b == 0 && i != 0 then 0 else i + 1;
        return;
      }
      JoinStep(value, i, s[i..]);
      assert s[i..][1..] == s[i + 1..];
      value := Plus(value, i, b - 128);
      i := i + 1;
    }
    JoinEnd(value, i, s[i..]);
  }

  lemma JoinNone(s: seq<Byte>)
    ensures Read(s) == Join(0, 0, ReadRest(s[0..], 0))
  {
    assert s[0..] == s;
  }
}
