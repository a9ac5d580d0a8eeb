/** A 128-bit number in two 64-bit halves, changed in place. */
module Wide {
  import opened Arith
  import opened DiyFps
  import opened Powers

  const TWO128: int := 0x1_0000_0000_0000_0000_0000_0000_0000_0000

  lemma {:induction false} TwosTo(s: nat)
    requires s <= 64
    ensures Pow(2, s) * Pow(2, 64 - s) == TWO64 && 0 < Pow(2, s) <= TWO64
    ensures s < 64 ==> Pow(2, s) < TWO64
  {
    hide Pow;
    Pow2Word(64);
    PowAdd(2, s, 64 - s);
    PowMono(2, s, 64);
    if s < 64 { PowStrict(2, s, 64); }
  }

  /** A left shift drops the bits above the 64th. */
  function ShiftedLeft(x: uint64, s: nat): uint64 {
    ((x as int * Pow(2, s)) % TWO64) as uint64
  }

  function ShiftedDown(x: uint64, s: nat): uint64 {
    QuotientFits(x as int, Pow(2, s));
    (x as int / Pow(2, s)) as uint64
  }

  lemma {:induction false} QuotientFits(n: int, p: int)
    requires n >= 0 && p > 0
    ensures 0 <= n / p <= n && 0 <= n / p * p <= n
  {
    var q := n / p;
    assert n == q * p + n % p;
    if q < 0 { MulMono(q, -1, p); }
    MulMono(0, q, p);
    MulMono(1, p, q);
  }

  lemma {:induction false} DroppedBits(x: int, s: nat)
    requires 0 <= x && s <= 64
    ensures (x * Pow(2, 64 - s)) % TWO64 == (x % Pow(2, s)) * Pow(2, 64 - s)
  {
    hide Pow;
    TwosTo(s);
    var p, q := Pow(2, s), Pow(2, 64 - s);
    var h, r := x / p, x % p;
    assert x == h * p + r;
    TimesSplit(h, p, r, q);
    MulMono(0, r, q);
    MulMono(r, p - 1, q);
    TimesPredecessor(p, q);
    DivModUnique(x * q, TWO64, h, r * q);
  }

  /** The quotient by 2^s, from the halves. */
  lemma {:induction false} ShiftedRight(high: int, low: int, s: nat)
    requires 0 <= high < TWO64 && 0 <= low < TWO64 && 0 < s < 64
    ensures (high * TWO64 + low) / Pow(2, s)
         == high / Pow(2, s) * TWO64 + (high % Pow(2, s) * Pow(2, 64 - s) + low / Pow(2, s))
    ensures 0 <= high % Pow(2, s) * Pow(2, 64 - s) + low / Pow(2, s) < TWO64
  {
    hide Pow;
    TwosTo(s);
    var p, q := Pow(2, s), Pow(2, 64 - s);
    var h, r, l, m := high / p, high % p, low / p, low % p;
    assert high == h * p + r && low == l * p + m;
    MulMono(0, r, q);
    MulMono(r, p - 1, q);
    TimesPredecessor(p, q);
    if l >= q { MulMono(q, l, p); }
    if l < 0 { MulMono(l, -1, p); }
    Gathered(h, p, r, q, l, m);
    DivModUnique(high * TWO64 + low, p, h * TWO64 + (r * q + l), m);
  }

  lemma {:induction false} Gathered(h: int, p: int, r: int, q: int, l: int, m: int)
    requires p * q == TWO64
    ensures (h * p + r) * TWO64 + (l * p + m) == (h * TWO64 + (r * q + l)) * p + m
  {
    assert r * TWO64 == r * (p * q) == (r * q) * p;
    assert (h * p) * TWO64 == (h * TWO64) * p;
  }

  class UInt128 {
    var highBits: uint64
    var lowBits: uint64

    ghost function Value(): (r: nat)
      reads this
      ensures r < TWO128
    {
      highBits as int * TWO64 + lowBits as int
    }

    constructor (high: uint64, low: uint64)
      ensures Value() == high as int * TWO64 + low as int
    {
      highBits, lowBits := high, low;
    }

    /** Exact as long as the product fits; no partial sum wraps. */
    method Multiply(multiplicand: uint32)
      requires Value() * multiplicand as int < TWO128
      modifies this
      ensures Value() == old(Value()) * multiplicand as int
    {
      ghost var h1, h0, l1, l0 := highBits as int / 0x1_0000_0000, highBits as int % 0x1_0000_0000,
          lowBits as int / 0x1_0000_0000, lowBits as int % 0x1_0000_0000;
      ghost var m := multiplicand as int;
      Parts(h1, h0, l1, l0, m);
      PartBound(l0, m);
      PartBound(l1, m);
      PartBound(h0, m);
      PartBound(h1, m);
      var accumulator := lowBits % 0x1_0000_0000 * multiplicand as uint64;
      var part := accumulator % 0x1_0000_0000;
      accumulator := accumulator / 0x1_0000_0000;
      accumulator := accumulator + lowBits / 0x1_0000_0000 * multiplicand as uint64;
      lowBits := accumulator % 0x1_0000_0000 * 0x1_0000_0000 + part;
      accumulator := accumulator / 0x1_0000_0000;
      accumulator := accumulator + highBits % 0x1_0000_0000 * multiplicand as uint64;
      part := accumulator % 0x1_0000_0000;
      accumulator := accumulator / 0x1_0000_0000;
      accumulator := accumulator + highBits / 0x1_0000_0000 * multiplicand as uint64;
      highBits := accumulator % 0x1_0000_0000 * 0x1_0000_0000 + part;
      NoCarry(h1 * m, h0 * m, l1 * m, l0 * m);
      assert accumulator / 0x1_0000_0000 == 0;
    }

    /** Shifts by less than 64 bits to the left; what leaves the upper half is lost. */
    method ShiftUp(s: nat)
      requires 0 < s < 64
      modifies this
      ensures Value() == old(Value()) * Pow(2, s) % TWO128
    {
      hide Pow;
      ShiftLeftSteps(highBits as int, lowBits as int, s);
      TwosTo(64 - s);
      var high := ShiftedLeft(highBits, s);
      highBits := high + lowBits / Pow(2, 64 - s) as uint64;
      lowBits := ShiftedLeft(lowBits, s);
    }

    /** Shifts by less than 64 bits to the right; the low bits of the upper half enter the lower one. */
    method ShiftDown(s: nat)
      requires 0 < s < 64
      modifies this
      ensures Value() == old(Value()) / Pow(2, s)
    {
      hide Pow, ShiftedLeft, ShiftedDown;
      DownParts(highBits, lowBits, s);
      var low := ShiftedDown(lowBits, s);
      lowBits := low + ShiftedLeft(highBits, 64 - s);
      highBits := ShiftedDown(highBits, s);
    }

    method Shift(shiftAmount: int)
      requires -64 <= shiftAmount <= 64
      modifies this
      ensures shiftAmount >= 0 ==> Value() == old(Value()) / Pow(2, shiftAmount)
      ensures shiftAmount < 0 ==> Value() == old(Value()) * Pow(2, -shiftAmount) % TWO128
    {
      hide Pow;
      Pow2Word(64);
      PowBasics(2);
      if shiftAmount == 0 {
        return;
      } else if shiftAmount == -64 {
        highBits := lowBits;
        lowBits := 0;
      } else if shiftAmount == 64 {
        lowBits := highBits;
        highBits := 0;
      } else if shiftAmount <= 0 {
        ShiftUp(-shiftAmount);
      } else {
        ShiftDown(shiftAmount);
      }
    }

    method DivModHigh(power: nat) returns (result: int)
      requires 64 <= power < 128
      modifies this
      ensures result == old(Value()) / Pow(2, power) && Value() == old(Value()) % Pow(2, power)
    {
      hide Pow;
      HighQuotient(highBits as int, lowBits as int, power - 64);
      TwosTo(power - 64);
      var p := Pow(2, power - 64) as uint64;
      var quotient := highBits / p;
      result := quotient as int;
      highBits := highBits - quotient * p;
    }

    method DivModLow(power: nat) returns (result: int)
      requires 0 < power < 64 && Value() / Pow(2, power) < 0x8000_0000
      modifies this
      ensures result == old(Value()) / Pow(2, power) && Value() == old(Value()) % Pow(2, power)
    {
      hide Pow, ShiftedLeft;
      LowDivision(highBits, lowBits, power);
      var p := Pow(2, power) as uint64;
      var partLow := lowBits / p;
      var partHigh := ShiftedLeft(highBits, 64 - power);
      result := partLow as int + partHigh as int;
      highBits := 0;
      lowBits := lowBits - partLow * p;
    }

    /** Returns the quotient by 2^power and leaves the remainder. */
    method DivModPowerOf2(power: nat) returns (result: int)
      requires 0 < power < 128 && Value() / Pow(2, power) < 0x8000_0000
      modifies this
      ensures result == old(Value()) / Pow(2, power) && Value() == old(Value()) % Pow(2, power)
    {
      hide Pow;
      if power >= 64 {
        result := DivModHigh(power);
      } else {
        result := DivModLow(power);
      }
    }

    function IsZero(): (r: bool)
      reads this
      ensures r <==> Value() == 0
    {
      highBits == 0 && lowBits == 0
    }

    method BitAt(position: nat) returns (bit: int)
      requires position < 128
      ensures bit == Value() / Pow(2, position) % 2
    {
      hide Pow;
      if position >= 64 {
        HighQuotient(highBits as int, lowBits as int, position - 64);
        TwosTo(position - 64);
        bit := (highBits / Pow(2, position - 64) as uint64 % 2) as int;
      } else {
        TwosTo(position);
        if position > 0 {
          ShiftedRight(highBits as int, lowBits as int, position);
          EvenHigh(highBits as int, lowBits as int, position);
        } else {
          PowBasics(2);
        }
        bit := (lowBits / Pow(2, position) as uint64 % 2) as int;
      }
    }
  }

  /** The quotient by a power of at least 2^64 is one of the upper half. */
  lemma {:induction false} HighQuotient(high: int, low: int, k: nat)
    requires 0 <= high < TWO64 && 0 <= low < TWO64 && k < 64
    ensures (high * TWO64 + low) / Pow(2, k + 64) == high / Pow(2, k)
    ensures (high * TWO64 + low) % Pow(2, k + 64) == high % Pow(2, k) * TWO64 + low
    ensures high / Pow(2, k) * Pow(2, k) + high % Pow(2, k) == high && 0 <= high / Pow(2, k)
  {
    hide Pow;
    Pow2Word(64);
    PowAdd(2, k, 64);
    TwosTo(k);
    var p := Pow(2, k);
    var h, r := high / p, high % p;
    assert high == h * p + r;
    if h < 0 { MulMono(h, -1, p); }
    Stretched(h, p, r, low);
    DivModUnique(high * TWO64 + low, p * TWO64, h, r * TWO64 + low);
  }

  lemma {:induction false} Stretched(h: int, p: int, r: int, low: int)
    ensures (h * p + r) * TWO64 + low == h * (p * TWO64) + (r * TWO64 + low)
  {
  }

  lemma {:induction false} DownParts(high: uint64, low: uint64, s: nat)
    requires 0 < s < 64
    ensures ShiftedDown(low, s) as int + ShiftedLeft(high, 64 - s) as int < TWO64
    ensures (high as int * TWO64 + low as int) / Pow(2, s)
         == ShiftedDown(high, s) as int * TWO64 + (ShiftedDown(low, s) as int + ShiftedLeft(high, 64 - s) as int)
  {
    hide Pow;
    ShiftedRight(high as int, low as int, s);
    DroppedBits(high as int, s);
    TwosTo(s);
  }

  lemma {:induction false} LowDivision(high: uint64, low: uint64, s: nat)
    requires 0 < s < 64 && (high as int * TWO64 + low as int) / Pow(2, s) < 0x8000_0000
    ensures 0 < Pow(2, s) < TWO64 && 0 <= low as int / Pow(2, s) * Pow(2, s) <= low as int
    ensures low as int / Pow(2, s) + ShiftedLeft(high, 64 - s) as int == (high as int * TWO64 + low as int) / Pow(2, s)
    ensures low as int - low as int / Pow(2, s) * Pow(2, s) == (high as int * TWO64 + low as int) % Pow(2, s)
  {
    hide Pow;
    SmallHigh(high as int, low as int, s);
    TwosTo(s);
    QuotientFits(low as int, Pow(2, s));
  }

  /** With a small quotient nothing is lost from the upper half. */
  lemma {:induction false} SmallHigh(high: int, low: int, s: nat)
    requires 0 <= high < TWO64 && 0 <= low < TWO64 && 0 < s < 64 && (high * TWO64 + low) / Pow(2, s) < 0x8000_0000
    ensures high * Pow(2, 64 - s) % TWO64 == high * Pow(2, 64 - s) &&
            high * Pow(2, 64 - s) + low / Pow(2, s) == (high * TWO64 + low) / Pow(2, s)
    ensures low / Pow(2, s) * Pow(2, s) <= low && (high * TWO64 + low) % Pow(2, s) == low - low / Pow(2, s) * Pow(2, s)
  {
    hide Pow;
    TwosTo(s);
    var p, q := Pow(2, s), Pow(2, 64 - s);
    var l, m := low / p, low % p;
    assert low == l * p + m;
    MulMono(0, high, q);
    if l < 0 { MulMono(l, -1, p); }
    ThroughLow(high, p, q, l, m);
    DivModUnique(high * TWO64 + low, p, high * q + l, m);
  }

  lemma {:induction false} ThroughLow(high: int, p: int, q: int, l: int, m: int)
    requires p * q == TWO64
    ensures high * TWO64 + (l * p + m) == (high * q + l) * p + m
  {
    assert high * TWO64 == (high * q) * p;
  }

  /** The bits of the upper half do not reach the lowest bit of the quotient. */
  lemma {:induction false} EvenHigh(high: int, low: int, s: nat)
    requires 0 <= high < TWO64 && 0 <= low < TWO64 && 0 < s < 64
    ensures (high * TWO64 + low) / Pow(2, s) % 2 == low / Pow(2, s) % 2
  {
    hide Pow;
    TwosTo(s);
    PowAdd(2, 63 - s, 1);
    PowOneTwo();
    var p, q := Pow(2, s), Pow(2, 64 - s);
    var l, m := low / p, low % p;
    assert low == l * p + m;
    ThroughLow(high, p, q, l, m);
    DivModUnique(high * TWO64 + low, p, high * q + l, m);
    EvenProduct(high, Pow(2, 63 - s), q);
    EvenSum(high * Pow(2, 63 - s), high * q, l);
  }

  lemma {:induction false} EvenProduct(a: int, b: int, q: int)
    requires q == b * 2
    ensures a * q == 2 * (a * b)
  {
  }

  lemma {:induction false} EvenSum(n: int, e: int, l: int)
    requires e == 2 * n
    ensures (e + l) % 2 == l % 2
  {
  }

  lemma {:induction false} PowOneTwo()
    ensures Pow(2, 1) == 2
  {
    assert Pow(2, 0) == 1;
  }

  lemma {:induction false} Parts(h1: int, h0: int, l1: int, l0: int, m: int)
    ensures ((h1 * 0x1_0000_0000 + h0) * TWO64 + (l1 * 0x1_0000_0000 + l0)) * m
         == (h1 * m) * 0x1_0000_0000_0000_0000_0000_0000 + (h0 * m) * TWO64 + (l1 * m) * 0x1_0000_0000 + l0 * m
  {
  }

  /** The columns, each with the carry of the one below. */
  lemma {:induction false} NoCarry(d: int, c: int, b: int, a: int)
    requires 0 <= a && 0 <= b && 0 <= c && 0 <= d &&
             d * 0x1_0000_0000_0000_0000_0000_0000 + c * TWO64 + b * 0x1_0000_0000 + a < TWO128
    ensures var a1 := a / 0x1_0000_0000 + b;
            var a2 := a1 / 0x1_0000_0000 + c;
            var a3 := a2 / 0x1_0000_0000 + d;
            && a3 < 0x1_0000_0000
            && d * 0x1_0000_0000_0000_0000_0000_0000 + c * TWO64 + b * 0x1_0000_0000 + a
               == (a3 % 0x1_0000_0000 * 0x1_0000_0000 + a2 % 0x1_0000_0000) * TWO64 +
                   (a1 % 0x1_0000_0000 * 0x1_0000_0000 + a % 0x1_0000_0000)
  {
  }

  /** A left shift of both halves. */
  lemma {:induction false} ShiftLeftSteps(high: int, low: int, s: nat)
    requires 0 <= high < TWO64 && 0 <= low < TWO64 && 0 < s < 64
    ensures var h := high * Pow(2, s) % TWO64 + low / Pow(2, 64 - s);
            && 0 <= h < TWO64
            && (high * TWO64 + low) * Pow(2, s) % TWO128 == h * TWO64 + low * Pow(2, s) % TWO64
  {
    hide Pow;
    TwosTo(64 - s);
    var p, q := Pow(2, 64 - s), Pow(2, s);
    DroppedBits(high, 64 - s);
    DroppedBits(low, 64 - s);
    var h, r, l, m := high / p, high % p, low / p, low % p;
    assert high == h * p + r && low == l * p + m;
    HalvesFit(p, q, r, l, m);
    Spread(h, p, r, q, l, m);
    DivModUnique((high * TWO64 + low) * q, TWO128, h, (r * q + l) * TWO64 + m * q);
  }

  lemma {:induction false} HalvesFit(p: int, q: int, r: int, l: int, m: int)
    requires p * q == TWO64 && p > 0 && q > 0 && 0 <= r < p && 0 <= m < p && 0 <= l * p + m < TWO64
    ensures 0 <= r * q && r * q + l < TWO64 && 0 <= m * q < TWO64 && 0 <= l < q
  {
    MulMono(0, r, q);
    MulMono(r, p - 1, q);
    MulMono(0, m, q);
    MulMono(m, p - 1, q);
    TimesPredecessor(p, q);
    if l >= q { MulMono(q, l, p); }
    if l < 0 { MulMono(l, -1, p); }
  }

  lemma {:induction false} Spread(h: int, p: int, r: int, q: int, l: int, m: int)
    requires p * q == TWO64
    ensures ((h * p + r) * TWO64 + (l * p + m)) * q == h * TWO128 + ((r * q + l) * TWO64 + m * q)
  {
    assert (h * p) * q == h * TWO64 && (l * p) * q == l * TWO64;
    assert ((h * p + r) * TWO64 + (l * p + m)) * q == ((h * p) * q) * TWO64 + (r * q) * TWO64 + (l * p) * q + m * q;
  }
}
