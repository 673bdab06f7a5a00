// Shifts, masks and bits of unsigned words, and the powers of two behind them.

module Words {
  const WORD := 0x1_0000_0000
  type Bit = b: int | 0 <= b < 2
  type Byte = b: int | 0 <= b < 256

  function Pow2(n: nat): (p: nat)
    ensures p >= 1
  {
    if n == 0 then 1 else 2 * Pow2(n - 1)
  }

  lemma Pow2At32()
    ensures Pow2(32) == 0x1_0000_0000
  {
    assert Pow2(4) == 16;
    assert Pow2(6) == 64;
    assert Pow2(8) == 256;
    assert Pow2(10) == 1024;
    assert Pow2(12) == 4096;
    assert Pow2(14) == 16384;
    assert Pow2(16) == 65536;
    assert Pow2(18) == 262144;
    assert Pow2(20) == 1048576;
    assert Pow2(22) == 4194304;
    assert Pow2(24) == 16777216;
    assert Pow2(26) == 67108864;
    assert Pow2(28) == 268435456;
    assert Pow2(30) == 1073741824;
  }

  lemma {:induction false} PowMonotonic(m: nat, n: nat)
    requires m <= n
    ensures Pow2(m) <= Pow2(n)
    decreases n
  {
    if m < n { PowMonotonic(m, n - 1); }
  }

  function BitAt(v: nat, i: nat): Bit {
    if i == 0 then v % 2 else BitAt(v / 2, i - 1)
  }

  // Shifts of unsigned words.
  function Shl(v: nat, n: nat): nat
    decreases n
  {
    if n == 0 then v else Shl(2 * v, n - 1)
  }

  function Shr(v: nat, n: nat): nat {
    if n == 0 then v else Shr(v / 2, n - 1)
  }

  lemma ShrEight(v: nat)
    ensures Shr(v, 8) == v / 256
  {
    assert Shr(v, 8) == Shr(v / 4, 6) by { assert v / 2 / 2 == v / 4; }
    assert Shr(v / 4, 6) == Shr(v / 16, 4) by { assert v / 4 / 2 / 2 == v / 16; }
    assert Shr(v / 16, 4) == Shr(v / 64, 2) by { assert v / 16 / 2 / 2 == v / 64; }
    assert Shr(v / 64, 2) == Shr(v / 256, 0) by { assert v / 64 / 2 / 2 == v / 256; }
  }

  lemma {:induction false} ShrTwice(v: nat, i: nat)
    ensures Shr(2 * v, i + 1) == Shr(v, i)
    ensures Shr(v, i) == 2 * Shr(v, i + 1) + BitAt(v, i)
    decreases i
  {
    if i > 0 { ShrTwice(v / 2, i - 1); }
  }

  lemma {:induction false} ShrBound(v: nat, i: nat)
    ensures Shr(v, i) <= v
    decreases i
  {
    if i > 0 { ShrBound(v / 2, i - 1); }
  }

  lemma {:induction false} ShrRange(v: nat, i: nat, k: nat)
    ensures v < Pow2(k + i) ==> Shr(v, i) < Pow2(k)
    ensures v >= Pow2(k + i) ==> Shr(v, i) >= Pow2(k)
    decreases i
  {
    if i > 0 { ShrRange(v / 2, i - 1, k); }
  }

  lemma {:induction false} ShlAdd(v: nat, w: nat, n: nat)
    ensures Shl(v + w, n) == Shl(v, n) + Shl(w, n)
    decreases n
  {
    if n > 0 { ShlAdd(2 * v, 2 * w, n - 1); }
  }

  lemma {:induction false} ShlSum(v: nat, w: nat, k: nat, n: nat)
    requires v + w <= Pow2(k)
    ensures Shl(v, n) + Shl(w, n) <= Pow2(k + n)
    decreases n
  {
    if n > 0 { ShlSum(2 * v, 2 * w, k + 1, n - 1); }
  }

  lemma {:induction false} ShlOne(n: nat)
    ensures Shl(1, n) == Pow2(n)
  {
    ShlPow(0, n);
  }

  lemma {:induction false} ShlPow(k: nat, n: nat)
    ensures Shl(Pow2(k), n) == Pow2(k + n)
    decreases n
  {
    if n > 0 { ShlPow(k + 1, n - 1); }
  }

  // The position masks see only low bits, so a 32-bit position is as good as the real one.
  lemma WordMask(pos: nat, bits: nat)
    requires bits <= 4
    ensures pos % WORD % Pow2(bits) == pos % Pow2(bits) < 16
  {
    hide Pow2;
    TreeSizes();
    Pow2Low();
    WordMaskTwice(pos, bits);
  }

  lemma Pow2Low()
    ensures Pow2(0) == 1 && Pow2(1) == 2 && Pow2(2) == 4
  {}

  // Masks of nested widths.
  lemma WordMaskTwice(pos: nat, bits: nat)
    requires bits <= 4
    ensures pos % WORD % Pow2(bits) == pos % Pow2(bits)
  {
    Multiples(pos % WORD, pos / WORD);
    assert pos % WORD + WORD * (pos / WORD) == pos;
    if bits == 0 { assert Pow2(0) == 1; }
    if bits == 1 { assert Pow2(1) == 2; }
    if bits == 2 { assert Pow2(2) == 4; }
    if bits == 3 { assert Pow2(3) == 8; }
    if bits == 4 { assert Pow2(4) == 16; }
  }

  lemma Multiples(x: nat, k: nat)
    ensures (x + WORD * k) % 16 == x % 16 && (x + WORD * k) % 8 == x % 8
    ensures (x + WORD * k) % 4 == x % 4 && (x + WORD * k) % 2 == x % 2
  {
    Mod16(x, 0x1000_0000 * k);
    Mod8(x, 0x2000_0000 * k);
    Mod4(x, 0x4000_0000 * k);
    Mod2(x, 0x8000_0000 * k);
  }

  lemma Mod16(x: nat, k: nat) ensures (x + 16 * k) % 16 == x % 16 {}
  lemma Mod8(x: nat, k: nat) ensures (x + 8 * k) % 8 == x % 8 {}
  lemma Mod4(x: nat, k: nat) ensures (x + 4 * k) % 4 == x % 4 {}
  lemma Mod2(x: nat, k: nat) ensures (x + 2 * k) % 2 == x % 2 {}

  lemma {:induction false} ShlDouble(v: nat, n: nat)
    ensures Shl(v, n + 1) == 2 * Shl(v, n)
    decreases n
  {
    if n > 0 { ShlDouble(2 * v, n - 1); }
  }

  lemma {:induction false} ShrZero(n: nat)
    ensures Shr(0, n) == 0
  {
    if n > 0 { ShrZero(n - 1); }
  }

  lemma {:induction false} ShlZero(n: nat)
    ensures Shl(0, n) == 0
  {
    if n > 0 { ShlZero(n - 1); }
  }

  lemma PowerTable()
    ensures Pow2(1) == 2 && Pow2(7) == 128 && Pow2(11) == 0x800 && Pow2(13) == 0x2000
    ensures Pow2(16) == 0x1_0000 && Pow2(17) == 0x2_0000 && Pow2(18) == 0x4_0000 && Pow2(19) == 0x8_0000
    ensures Pow2(27) == 0x800_0000 && Pow2(31) == 0x8000_0000
  {
    assert Pow2(4) == 16 && Pow2(7) == 128 && Pow2(9) == 0x200;
    assert Pow2(11) == 0x800 && Pow2(13) == 0x2000 && Pow2(15) == 0x8000 && Pow2(17) == 0x2_0000;
    assert Pow2(19) == 0x8_0000 && Pow2(21) == 0x20_0000 && Pow2(23) == 0x80_0000;
    assert Pow2(25) == 0x200_0000 && Pow2(27) == 0x800_0000 && Pow2(29) == 0x2000_0000;
  }

  lemma TreeSizes()
    ensures Pow2(3) == 8 && Pow2(4) == 16 && Pow2(6) == 64 && Pow2(8) == 256
  {
    assert Pow2(4) == 16 && Pow2(6) == 64;
  }

  lemma PowZero()
    ensures Pow2(0) == 1
  {}

  // ----- Remainders ------------------------------------------------------------------------

  lemma MulGe(a: int, b: int)
    requires a > 0 && b > 0
    ensures a * b >= a
  {}

  lemma ModUnique(v: int, n: int, q: int, r: int)
    requires n > 0 && v == n * q + r && 0 <= r < n
    ensures v % n == r && v / n == q
  {
    var p := v / n;
    assert n * (q - p) == v % n - r;
    if q > p {
      MulGe(n, q - p);
    } else if q < p {
      MulGe(n, p - q);
    }
  }

  lemma ModShift(x: int, k: int, n: int)
    requires n > 0
    ensures (x + n * k) % n == x % n
  {
    assert x + n * k == n * (x / n + k) + x % n;
    ModUnique(x + n * k, n, x / n + k, x % n);
  }

  lemma ModPart(x: int, y: int, n: int)
    requires n > 0
    ensures (x % n + y) % n == (x + y) % n
  {
    ModShift(x % n + y, x / n, n);
    assert x + y == x % n + y + n * (x / n);
  }

  // A remainder may be taken by a multiple first.
  lemma ModMultiple(x: int, n: int, k: int)
    requires n > 0 && k > 0 && n * k > 0
    ensures x % (n * k) % n == x % n
  {
    var m := n * k;
    assert x == x % m + n * (k * (x / m));
    ModShift(x % m, k * (x / m), n);
  }

  lemma DivThenMod(v: nat, a: nat, b: nat)
    requires a > 0 && b > 0 && a * b > 0
    ensures v / a % b == v % (a * b) / a
  {
    var m := a * b;
    var q, r := v / m, v % m;
    assert v == a * (b * q + r / a) + r % a;
    ModUnique(v, a, b * q + r / a, r % a);
    if r / a >= b { MulOrder(a, b, r / a); }
    ModUnique(v / a, b, q, r / a);
  }

  // A number by its bytes.
  lemma FourDigits(a: nat, b: nat, c: nat, d: nat)
    requires a < 0x100 && b < 0x100 && c < 0x100
    ensures var v := d * 0x100_0000 + c * 0x1_0000 + b * 0x100 + a;
      && v % 0x100 == a && v / 0x100 % 0x100 == b && v / 0x1_0000 % 0x100 == c && v / 0x100_0000 == d
  {
    var v := d * 0x100_0000 + c * 0x1_0000 + b * 0x100 + a;
    ModUnique(v, 0x100, d * 0x1_0000 + c * 0x100 + b, a);
    ModUnique(d * 0x1_0000 + c * 0x100 + b, 0x100, d * 0x100 + c, b);
    ModUnique(v, 0x1_0000, d * 0x100 + c, b * 0x100 + a);
    ModUnique(d * 0x100 + c, 0x100, d, c);
    ModUnique(v, 0x100_0000, d, c * 0x1_0000 + b * 0x100 + a);
  }

  // Fewer than n apart, numbers have different remainders.
  lemma ModDiffer(i: nat, j: nat, n: nat)
    requires i < j < i + n
    ensures i % n != j % n
  {
    if i % n == j % n {
      assert j - i == n * (j / n - i / n);
      if j / n > i / n { MulGe(n, j / n - i / n); }
    }
  }

  lemma MulOrder(a: nat, b: nat, c: nat)
    requires b <= c
    ensures a * b <= a * c
  {}
}
