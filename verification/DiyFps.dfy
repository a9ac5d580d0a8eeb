/** Arithmetic on 64-bit significands with an exponent, and their conversion to doubles. */
module DiyFps {
  import opened Arith
  import opened RealPowers
  import opened Powers
  import opened Ieee

  const TWO64: int := 0x1_0000_0000_0000_0000
  const TWO63: int := 0x8000_0000_0000_0000

  /** r is the product of a and b in 64 bits, rounded half up. */
  ghost predicate IsProduct(r: DiyFp, a: DiyFp, b: DiyFp) {
    r.e == a.e + b.e + 64 && r.f as int == (a.f as int * b.f as int + TWO63) / TWO64
  }

  /** r is a, shifted to the left. */
  ghost predicate IsShifted(r: DiyFp, a: DiyFp) {
    r.e <= a.e && r.f as int == a.f as int * Pow(2, a.e - r.e)
  }

  /** The upper 64 bits of the product, rounded half up; no 64-bit operation wraps. */
  method Multiply(x: DiyFp, other: DiyFp) returns (r: DiyFp)
    ensures IsProduct(r, x, other)
  {
    var a, b := x.f / 0x1_0000_0000, x.f % 0x1_0000_0000;
    var c, d := other.f / 0x1_0000_0000, other.f % 0x1_0000_0000;
    PartBound(a as int, c as int);
    PartBound(b as int, c as int);
    PartBound(a as int, d as int);
    PartBound(b as int, d as int);
    var ac, bc, ad, bd := a * c, b * c, a * d, b * d;
    var tmp := bd / 0x1_0000_0000 + ad % 0x1_0000_0000 + bc % 0x1_0000_0000;
    tmp := tmp + 0x8000_0000;
    Reassembled(a as int, b as int, c as int, d as int, tmp as int);
    ProductBound(x.f as int, other.f as int);
    var f := ac + ad / 0x1_0000_0000 + bc / 0x1_0000_0000 + tmp / 0x1_0000_0000;
    r := DiyFp(f, x.e + other.e + 64);
  }

  lemma {:induction false} PartBound(a: int, c: int)
    requires 0 <= a < 0x1_0000_0000 && 0 <= c < 0x1_0000_0000
    ensures 0 <= a * c <= 0xFFFF_FFFE_0000_0001
  {
    MulMono(a, 0xFFFF_FFFF, c);
    MulMono(0, a, c);
  }

  lemma {:induction false} ProductBound(f: int, g: int)
    requires 0 <= f < TWO64 && 0 <= g < TWO64
    ensures 0 <= (f * g + TWO63) / TWO64 < TWO64
  {
    MulMono(f, TWO64 - 1, g);
    MulMono(0, f, g);
  }

  lemma {:induction false} Reassembled(a: int, b: int, c: int, d: int, tmp: int)
    requires a * c >= 0 && b * c >= 0 && a * d >= 0 && b * d >= 0
    requires tmp == b * d / 0x1_0000_0000 + a * d % 0x1_0000_0000 + b * c % 0x1_0000_0000 + 0x8000_0000
    ensures ((a * 0x1_0000_0000 + b) * (c * 0x1_0000_0000 + d) + TWO63) / TWO64
         == a * c + a * d / 0x1_0000_0000 + b * c / 0x1_0000_0000 + tmp / 0x1_0000_0000
  {
    Expand(a, b, c, d);
    Columns(a * c, a * d, b * c, b * d, tmp);
  }

  lemma {:induction false} Expand(a: int, b: int, c: int, d: int)
    ensures (a * 0x1_0000_0000 + b) * (c * 0x1_0000_0000 + d)
         == a * c * TWO64 + (a * d + b * c) * 0x1_0000_0000 + b * d
  {
  }

  lemma {:induction false} Columns(ac: int, ad: int, bc: int, bd: int, tmp: int)
    requires ac >= 0 && ad >= 0 && bc >= 0 && bd >= 0
    requires tmp == bd / 0x1_0000_0000 + ad % 0x1_0000_0000 + bc % 0x1_0000_0000 + 0x8000_0000
    ensures (ac * TWO64 + (ad + bc) * 0x1_0000_0000 + bd + TWO63) / TWO64
         == ac + ad / 0x1_0000_0000 + bc / 0x1_0000_0000 + tmp / 0x1_0000_0000
  {
    var low := tmp % 0x1_0000_0000 * 0x1_0000_0000 + bd % 0x1_0000_0000;
    var q := ac + ad / 0x1_0000_0000 + bc / 0x1_0000_0000 + tmp / 0x1_0000_0000;
    assert ac * TWO64 + (ad + bc) * 0x1_0000_0000 + bd + TWO63 == q * TWO64 + low;
    DivModUnique(q * TWO64 + low, TWO64, q, low);
  }

  /** Shifts the significand until its top bit is set; the value stays the same. */
  method Normalize(x: DiyFp) returns (r: DiyFp)
    requires x.f != 0
    ensures r.f as int >= TWO63 && IsShifted(r, x)
  {
    hide Pow;
    var f, e := x.f, x.e;
    PowBasics(2);
    while f / 0x40_0000_0000_0000 == 0
      invariant f > 0 && e <= x.e && f as int == x.f as int * Pow(2, x.e - e)
      decreases TWO64 - f as int
    {
      PowAdd(2, x.e - e, 10);
      Pow10Bits();
      Regroup(x.f as int, Pow(2, x.e - e), Pow(2, 10));
      f := f * 1024;
      e := e - 10;
    }
    while f / 0x8000_0000_0000_0000 == 0
      invariant f > 0 && e <= x.e && f as int == x.f as int * Pow(2, x.e - e)
      decreases TWO64 - f as int
    {
      PowAdd(2, x.e - e, 1);
      Regroup(x.f as int, Pow(2, x.e - e), Pow(2, 1));
      f := f * 2;
      e := e - 1;
    }
    r := DiyFp(f, e);
  }

  lemma {:induction false} Regroup(f: int, p: int, q: int)
    ensures f * (p * q) == (f * p) * q
  {
  }

  lemma {:induction false} Pow10Bits()
    ensures Pow(2, 10) == 1024
  {
  }

  /** The double whose significand and exponent are f and e; a significand of 2^53 carries into the exponent. */
  ghost predicate Encodes(d: Double, f: int, e: int) {
    if e >= MAX_EXPONENT || (f == 0x20_0000_0000_0000 && e + 1 >= MAX_EXPONENT) then d.d64 == INFINITY
    else if f == 0x20_0000_0000_0000 then d.Finite() && d.Significand() as int == 0x10_0000_0000_0000 &&
        d.Exponent() == e + 1
    else d.Finite() && d.Significand() as int == f && d.Exponent() == e
  }

  /** The word of a number with at most 53 significant bits; what is too large becomes infinity. */
  method DiyFpToUint64(diyFp: DiyFp) returns (r: uint64)
    ensures diyFp.f <= 2 * HIDDEN_BIT - 1 && diyFp.e < DENORMAL_EXPONENT ==> r == 0
    ensures (diyFp.e >= DENORMAL_EXPONENT && HIDDEN_BIT <= diyFp.f <= 2 * HIDDEN_BIT)
         || (diyFp.e == DENORMAL_EXPONENT && diyFp.f <= HIDDEN_BIT)
        ==> Encodes(Double(r), diyFp.f as int, diyFp.e)
  {
    var significand, exponent := diyFp.f, diyFp.e;
    while significand > 2 * HIDDEN_BIT - 1
      invariant significand <= diyFp.f && exponent >= diyFp.e
      invariant diyFp.f <= 2 * HIDDEN_BIT - 1 ==> significand == diyFp.f && exponent == diyFp.e
      invariant diyFp.f == 2 * HIDDEN_BIT ==>
                  (significand == diyFp.f && exponent == diyFp.e) ||
                      (significand == HIDDEN_BIT && exponent == diyFp.e + 1)
      decreases significand
    {
      significand := significand / 2;
      exponent := exponent + 1;
    }
    if exponent >= MAX_EXPONENT {
      return INFINITY;
    }
    if exponent < DENORMAL_EXPONENT {
      return 0;
    }
    ghost var f, e := significand, exponent;
    while exponent > DENORMAL_EXPONENT && significand / HIDDEN_BIT % 2 == 0
      invariant significand < 2 * HIDDEN_BIT && DENORMAL_EXPONENT <= exponent < MAX_EXPONENT
      invariant f >= HIDDEN_BIT || e == DENORMAL_EXPONENT ==> significand == f && exponent == e
      decreases exponent - DENORMAL_EXPONENT
    {
      significand := significand * 2;
      exponent := exponent - 1;
    }
    var biasedExponent: uint64;
    if exponent == DENORMAL_EXPONENT && significand / HIDDEN_BIT % 2 == 0 {
      biasedExponent := 0;
    } else {
      biasedExponent := (exponent + EXPONENT_BIAS) as uint64;
    }
    WordFields(significand, biasedExponent);
    r := significand % HIDDEN_BIT + biasedExponent * HIDDEN_BIT;
  }

  lemma {:induction false} WordFields(significand: uint64, biased: uint64)
    requires significand < 2 * HIDDEN_BIT && biased < 0x7FF
    ensures (significand % HIDDEN_BIT) as int + biased as int * 0x10_0000_0000_0000 < INFINITY as int
    ensures var d := Double(significand % HIDDEN_BIT + biased * HIDDEN_BIT);
            d.BiasedExponent() == biased && d.d64 % HIDDEN_BIT == significand % HIDDEN_BIT
  {
  }
}
