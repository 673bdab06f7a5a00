// How many input bytes a run of decisions can cost, whatever the input holds.

module RangeBudget {
  import opened RangeCoder
  import opened Words

  function Power(b: nat, n: nat): nat {
    if n == 0 then 1 else b * Power(b, n - 1)
  }

  function Models(xs: seq<Decision>): nat {
    if xs == [] then 0 else (if xs[0].Model? then 1 else 0) + Models(xs[1..])
  }

  function Directs(xs: seq<Decision>): nat {
    if xs == [] then 0 else (if xs[0].Direct? then 1 else 0) + Directs(xs[1..])
  }

  lemma {:induction false} CountsConcat(xs: seq<Decision>, ys: seq<Decision>)
    ensures Models(xs + ys) == Models(xs) + Models(ys)
    ensures Directs(xs + ys) == Directs(xs) + Directs(ys)
    decreases |xs|
  {
    if xs == [] {
      assert xs + ys == ys;
    } else {
      assert (xs + ys)[1..] == xs[1..] + ys;
      CountsConcat(xs[1..], ys);
    }
  }

  // An adaptive decision keeps at least 1/67 of a normalised range, a direct one 128/257.
  function Num(x: Decision): nat { if x.Model? then 67 else 257 }
  function Den(x: Decision): nat { if x.Model? then 1 else 128 }

  function Loss(xs: seq<Decision>): nat {
    if xs == [] then 1 else Num(xs[0]) * Loss(xs[1..])
  }

  function Gain(xs: seq<Decision>): nat {
    if xs == [] then 1 else Den(xs[0]) * Gain(xs[1..])
  }

  lemma DecodeModelCost(inp: seq<Byte>, d: Dec, ctx: nat)
    requires TOP <= d.range < WORD
    ensures var d1 := DecodeModel(inp, d, ctx).1;
      0x10000 < d1.range < WORD && d1.pos == d.pos && d1.range * 67 >= d.range
  {
    SplitBounds(d.range, ProbAt(d.probs, ctx));
    SplitShare(d.range, ProbAt(d.probs, ctx));
  }

  lemma SplitShare(range: nat, p: Prob)
    requires range >= TOP
    ensures Split(range, p) * 67 >= range && (range - Split(range, p)) * 67 >= range
  {
    var q := range / 2048;
    MulMono(31, p, q);
    MulMono(p, 2017, q);
  }

  lemma DecodeOneCost(inp: seq<Byte>, d: Dec, x: Decision)
    requires 0x10000 < d.range < WORD
    ensures var d1 := DecodeOne(inp, d, x).1;
      && 0x10000 < d1.range < WORD
      && d.pos <= d1.pos <= d.pos + 1
      && d1.range * Num(x) >= d.range * Power(256, d1.pos - d.pos) * Den(x)
  {
    var n := Normalize(inp, d);
    DecodeNormalized(inp, d, x);
    assert Power(256, 1) == 256;
    if x.Model? {
      DecodeModelCost(inp, n, x.ctx);
    }
  }

  lemma {:induction false} RunCost(inp: seq<Byte>, d: Dec, xs: seq<Decision>)
    requires 0x10000 < d.range < WORD && After(inp, d, xs).Some?
    ensures var d' := After(inp, d, xs).value;
      && 0x10000 < d'.range < WORD && d.pos <= d'.pos
      && d'.range * Loss(xs) >= d.range * Power(256, d'.pos - d.pos) * Gain(xs)
    decreases |xs|
  {
    if xs != [] {
      var d1 := DecodeOne(inp, d, xs[0]).1;
      DecodeOneCost(inp, d, xs[0]);
      RunCost(inp, d1, xs[1..]);
      var d' := After(inp, d, xs).value;
      PowerAdd(256, d1.pos - d.pos, d'.pos - d1.pos);
      Chain(d'.range, Loss(xs[1..]), d1.range, Power(256, d'.pos - d1.pos), Gain(xs[1..]),
            Num(xs[0]), d.range, Power(256, d1.pos - d.pos), Den(xs[0]));
    }
  }

  lemma MulMono(a: nat, b: nat, c: nat)
    requires a <= b
    ensures a * c <= b * c && c * a <= c * b
  {
  }

  lemma Chain(r2: nat, w: nat, r1: nat, p: nat, g: nat, c: nat, r0: nat, q: nat, h: nat)
    requires r2 * w >= r1 * p * g && r1 * c >= r0 * q * h
    ensures r2 * (c * w) >= r0 * (q * p) * (h * g)
  {
    calc {
      r2 * (c * w);
    == { MulShuffle(r2, c, w); }
      r2 * w * c;
    >= { MulMono(r1 * p * g, r2 * w, c); }
      r1 * p * g * c;
    == { MulShuffle4(r1, p, g, c); }
      r1 * c * (p * g);
    >= { MulMono(r0 * q * h, r1 * c, p * g); }
      r0 * q * h * (p * g);
    == { MulShuffle5(r0, q, h, p, g); }
      r0 * (q * p) * (h * g);
    }
  }

  lemma MulShuffle(a: nat, b: nat, c: nat)
    ensures a * (b * c) == a * c * b
  {}

  lemma MulShuffle4(a: nat, b: nat, c: nat, d: nat)
    ensures a * b * c * d == a * d * (b * c)
  {
    MulShuffle(a * b, d, c);
    MulShuffle(a, b, d);
    assert a * b * d == a * d * b;
    assert a * b * c * d == a * b * d * c;
    assert a * d * b * c == a * d * (b * c);
  }

  lemma MulShuffle5(r: nat, q: nat, h: nat, p: nat, g: nat)
    ensures r * q * h * (p * g) == r * (q * p) * (h * g)
  {
    var t := r * q;
    assert t * h * (p * g) == t * p * (h * g) by {
      assert t * h * (p * g) == t * h * p * g;
      assert t * h * p == t * p * h;
      assert t * p * h * g == t * p * (h * g);
    }
    assert t * p == r * (q * p);
  }

  lemma {:induction false} PowerAdd(b: nat, m: nat, n: nat)
    ensures Power(b, m + n) == Power(b, m) * Power(b, n)
  {
    if m > 0 {
      PowerAdd(b, m - 1, n);
      MulShuffle(b, Power(b, n), Power(b, m - 1));
    }
  }

  lemma {:induction false} PowerMonotonic(b: nat, m: nat, n: nat)
    requires b >= 1 && m <= n
    ensures 1 <= Power(b, m) <= Power(b, n)
    decreases n
  {
    if n > 0 {
      if m < n {
        PowerMonotonic(b, m, n - 1);
        MulMono(1, b, Power(b, n - 1));
      } else {
        PowerMonotonic(b, m - 1, n - 1);
        MulMono(1, b, Power(b, n - 1));
      }
    }
  }

  lemma PowerTwice(b: nat, n: nat, v: nat)
    requires Power(b, n) == v
    ensures Power(b, 2 * n) == v * v
  {
    PowerAdd(b, n, n);
  }

  lemma Power67()
    ensures Power(67, 22) == 14915769363385151583217201855136979828889
  {
    assert Power(67, 1) == 67;
    PowerTwice(67, 1, 67);
    PowerTwice(67, 2, 4489);
    assert Power(67, 5) == 1350125107;
    PowerTwice(67, 5, 1350125107);
    assert Power(67, 11) == 122130132904968017083;
    PowerTwice(67, 11, 122130132904968017083);
  }

  lemma Power257()
    ensures Power(257, 26) == 455261795236548848613898617834496761711259318547402919942363649
  {
    assert Power(257, 1) == 257;
    PowerTwice(257, 1, 257);
    assert Power(257, 3) == 16974593;
    PowerTwice(257, 3, 16974593);
    PowerTwice(257, 6, 288136807515649);
    assert Power(257, 13) == 21336864700244711647204632038657;
    PowerTwice(257, 13, 21336864700244711647204632038657);
  }

  lemma Power256()
    ensures Power(256, 20) == 1461501637330902918203684832716283019655932542976
  {
    assert Power(256, 1) == 256;
    PowerTwice(256, 1, 256);
    PowerTwice(256, 2, 65536);
    assert Power(256, 5) == 1099511627776;
    PowerTwice(256, 5, 1099511627776);
    PowerTwice(256, 10, 1208925819614629174706176);
  }

  lemma Power128()
    ensures Power(128, 26) == 6129982163463555433433388108601236734474956488734408704
  {
    assert Power(128, 1) == 128;
    PowerTwice(128, 1, 128);
    assert Power(128, 3) == 2097152;
    PowerTwice(128, 3, 2097152);
    PowerTwice(128, 6, 4398046511104);
    assert Power(128, 13) == 2475880078570760549798248448;
    PowerTwice(128, 13, 2475880078570760549798248448);
  }

  lemma WorstCost()
    ensures Power(67, 22) * Power(257, 26) < Power(256, 20) * Power(128, 26)
  {
    Power67();
    Power257();
    Power256();
    Power128();
  }

  lemma {:induction false} LossIsPower(xs: seq<Decision>)
    ensures Loss(xs) == Power(67, Models(xs)) * Power(257, Directs(xs))
    ensures Gain(xs) == Power(128, Directs(xs))
    decreases |xs|
  {
    if xs != [] {
      LossIsPower(xs[1..]);
      LossStep(Num(xs[0]), Power(67, Models(xs[1..])), Power(257, Directs(xs[1..])));
    }
  }

  lemma LossStep(c: nat, a: nat, b: nat)
    ensures c * (a * b) == (c * a) * b == a * (c * b)
  {}

  // Decision lists that are cheap enough for 20 bytes: those of a long distance, and those
  // of a short distance, which has one adaptive decision more but no direct ones.
  predicate Affordable(xs: seq<Decision>) {
    (Models(xs) <= 22 && Directs(xs) <= 26) || (Models(xs) <= 23 && Directs(xs) == 0)
  }

  lemma LossBound(xs: seq<Decision>)
    requires Affordable(xs)
    ensures 1 <= Gain(xs) && 1 <= Loss(xs) < Power(256, 20) * Gain(xs)
  {
    hide Power, Loss, Gain, Models, Directs;
    LossIsPower(xs);
    PowerMonotonic(128, 0, Directs(xs));
    PowerMonotonic(67, 0, Models(xs));
    PowerMonotonic(257, 0, Directs(xs));
    MulMono(1, Power(67, Models(xs)), Power(257, Directs(xs)));
    if Models(xs) <= 22 {
      PowerBound(Models(xs), Directs(xs));
    } else {
      assert Models(xs) == 23 && Directs(xs) == 0;
      OneMore();
    }
  }

  lemma OneMore()
    ensures Power(67, 23) * Power(257, 0) < Power(256, 20) * Power(128, 0)
  {
    Power67();
    Power256();
  }

  lemma PowerBound(m: nat, k: nat)
    requires m <= 22 && k <= 26
    ensures Power(67, m) * Power(257, k) < Power(256, 20) * Power(128, k)
  {
    PowerMonotonic(67, m, 22);
    PowerMonotonic(128, 0, k);
    PowerMonotonic(128, 0, 26 - k);
    PowerBaseMonotonic(128, 257, 26 - k);
    PowerAdd(257, k, 26 - k);
    PowerAdd(128, k, 26 - k);
    WorstCost();
    Bound(Power(67, m), Power(67, 22), Power(257, k), Power(257, 26 - k), Power(128, k),
          Power(128, 26 - k), Power(256, 20));
  }

  lemma {:induction false} PowerBaseMonotonic(a: nat, b: nat, n: nat)
    requires a <= b
    ensures Power(a, n) <= Power(b, n)
  {
    if n > 0 {
      PowerBaseMonotonic(a, b, n - 1);
      MulMono(Power(a, n - 1), Power(b, n - 1), a);
      MulMono(a, b, Power(b, n - 1));
    }
  }

  lemma Bound(m: nat, m22: nat, k: nat, kr: nat, h: nat, hr: nat, t: nat)
    requires m <= m22 && hr <= kr && h >= 1 && hr >= 1
    requires m22 * (k * kr) < t * (h * hr)
    ensures m * k < t * h
  {
    MulMono(m, m22, k);
    MulMono(m * k, m22 * k, hr);
    MulMono(hr, kr, m22 * k);
    assert m * k * hr <= m22 * k * kr;
    MulShuffle(m22, k, kr);
    assert m22 * (k * kr) == m22 * k * kr;
    assert t * (h * hr) == t * h * hr;
    if m * k >= t * h { MulMono(t * h, m * k, hr); }
  }

  // From a normalised range such a list, with the final normalisation, takes at most 20
  // bytes: LZMA_REQUIRED_INPUT_MAX.
  lemma TwentyBytes(inp: seq<Byte>, d: Dec, xs: seq<Decision>)
    requires TOP <= d.range < WORD && After(inp, d, xs).Some? && Affordable(xs)
    ensures d.pos <= Normalize(inp, After(inp, d, xs).value).pos <= d.pos + 20
  {
    hide After, Loss, Gain, Models, Directs, DecodeOne, Affordable;
    var d' := After(inp, d, xs).value;
    var n := Normalize(inp, d');
    RunCost(inp, d, xs);
    LossBound(xs);
    var k := n.pos - d.pos;
    assert Power(256, 1) == 256;
    PowerAdd(256, n.pos - d'.pos, d'.pos - d.pos);
    NoOverrun(d'.range, Loss(xs), d.range, Power(256, d'.pos - d.pos), Gain(xs),
              Power(256, n.pos - d'.pos), Power(256, 20), Power(256, k));
    if k > 20 { PowerMonotonic(256, 21, k); }
  }

  lemma NoOverrun(r1: nat, w: nat, r0: nat, p: nat, g: nat, q: nat, t: nat, pk: nat)
    requires r1 * w >= r0 * p * g && r0 >= TOP && r1 * q < WORD && g >= 1 && w >= 1
    requires w < t * g && pk == q * p
    ensures pk < 256 * t
  {
    calc {
      TOP * (pk * g);
    <= { MulMono(TOP, r0, pk * g); }
      r0 * (q * p * g);
    == { MulShuffle5(r0, q, 1, p, g); MulShuffle4(r0, p, g, q); }
      r0 * p * g * q;
    <= { MulMono(r0 * p * g, r1 * w, q); }
      r1 * w * q;
    == { MulShuffle(r1, w, q); MulShuffle(r1, q, w); }
      r1 * q * w;
    < { MulStrict(r1 * q, WORD, w); }
      WORD * w;
    < WORD * (t * g);
    }
    assert pk * g < 256 * (t * g);
    assert 256 * (t * g) == 256 * t * g;
    if pk >= 256 * t { MulMono(256 * t, pk, g); }
  }

  lemma MulStrict(a: nat, b: nat, c: nat)
    requires a < b && c >= 1
    ensures a * c < b * c
  {}
}
