/** Left-to-right exponentiation and the tables of powers of five. */
module Powers {
  import opened Arith
  import opened Limbs

  function OddPart(n: nat): nat {
    if n == 0 then 0 else if n % 2 == 0 then OddPart(n / 2) else n
  }

  function BitLength(n: nat): nat {
    if n == 0 then 0 else 1 + BitLength(n / 2)
  }

  lemma {:induction false} BitLengthBound(n: nat)
    ensures n < Pow(2, BitLength(n))
    decreases n
  {
    if n > 0 { BitLengthBound(n / 2); }
  }

  lemma {:induction false} BitLengthSmall(n: nat, b: nat)
    requires n < Pow(2, b)
    ensures BitLength(n) <= b
    decreases b
  {
    if b > 0 && n > 0 { BitLengthSmall(n / 2, b - 1); }
  }

  /** Position of the most significant one of the exponent. */
  function TopBit(n: nat): nat
    requires n > 0
  {
    if n == 1 then 0 else 1 + TopBit(n / 2)
  }

  lemma {:induction false} TopBitBounds(n: nat)
    requires n > 0
    ensures Pow(2, TopBit(n)) <= n < 2 * Pow(2, TopBit(n))
    decreases n
  {
    if n > 1 { TopBitBounds(n / 2); }
  }

  /** The mask for the next of k remaining exponent bits; 0 when none remains. */
  function MaskOf(k: nat): nat {
    if k == 0 then 0 else Pow(2, k - 1)
  }

  /** The exponent without its k lowest bits. */
  function Prefix(power: nat, k: nat): nat {
    power / Pow(2, k)
  }

  lemma {:induction false} MaskStep(k: nat)
    ensures MaskOf(k) == 0 <==> k == 0
    ensures k > 0 ==> MaskOf(k) / 2 == MaskOf(k - 1)
  {
    if k > 1 { assert Pow(2, k - 1) == 2 * Pow(2, k - 2); }
  }

  lemma {:induction false} PrefixEnd(power: nat)
    ensures Prefix(power, 0) == power
  {
  }

  lemma {:induction false} HalfQuotient(n: nat, p: nat)
    requires p > 0
    ensures n / p == 2 * (n / (2 * p)) + n / p % 2
  {
    var q, r := n / p / 2, n / p % 2;
    var s := n % p;
    assert n == (2 * q + r) * p + s;
    assert (2 * q + r) * p == q * (2 * p) + r * p;
    MulMono(r, 1, p);
    DivModUnique(n, 2 * p, q, r * p + s);
  }

  /** One round of exponentiation: the prefix doubles and takes in the next bit. */
  lemma {:induction false} PowerStep(base: nat, power: nat, k: nat)
    requires k > 0 && base > 0
    ensures var p, q := Prefix(power, k), Prefix(power, k - 1);
            && Pow(base, p) * Pow(base, p) * (if power / MaskOf(k) % 2 != 0 then base else 1) == Pow(base, q)
            && 0 < Pow(base, p) * Pow(base, p) <= Pow(base, q)
  {
    HalfQuotient(power, Pow(2, k - 1));
    var p, q := Prefix(power, k), Prefix(power, k - 1);
    PowAdd(base, p, p);
    assert q == p + p || q == p + p + 1;
    MulMono(1, base, Pow(base, p + p));
  }

  /** The same for the value itself: squared, and multiplied where the exponent has a one. */
  lemma {:induction false} RoundParts(base: nat, power: nat, k: nat, v: nat)
    requires k > 0 && base > 0 && v == Pow(base, Prefix(power, k))
    ensures power / MaskOf(k) % 2 != 0 ==>
               v * v * base == Pow(base, Prefix(power, k - 1)) && base * (v * v) == v * v * base
    ensures power / MaskOf(k) % 2 == 0 ==> v * v == Pow(base, Prefix(power, k - 1))
    ensures 0 < v * v <= Pow(base, Prefix(power, k - 1))
  {
    hide Pow, Prefix;
    PowerStep(base, power, k);
  }

  lemma {:induction false} PrefixBelow(power: nat, k: nat)
    ensures Prefix(power, k) <= power
  {
    MulMono(1, Pow(2, k), Prefix(power, k));
    FloorBounds(power, Pow(2, k));
  }

  lemma {:induction false} PrefixFits(base: nat, power: nat, k: nat, limbs: nat)
    requires base > 0 && Pow(base, power) < BPow(limbs)
    ensures Pow(base, Prefix(power, k)) < BPow(limbs)
  {
    hide BPow, Pow, Prefix;
    PrefixBelow(power, k);
    PowMono(base, Prefix(power, k), power);
  }

  lemma {:induction false} PowBaseMono(a: nat, b: nat, e: nat)
    requires a <= b
    ensures Pow(a, e) <= Pow(b, e)
  {
    if e > 0 {
      PowBaseMono(a, b, e - 1);
      MulMono(a, b, Pow(a, e - 1));
      MulMono(Pow(a, e - 1), Pow(b, e - 1), b);
    }
  }

  /** bit_size * exponent bits are enough for the power. */
  lemma {:induction false} PowerFits(base: nat, power: nat, limbs: nat)
    requires limbs == BitLength(base) * power / 28 + 1 && power > 0
    ensures Pow(base, power) < BPow(limbs)
  {
    hide BPow, BitLength, Pow;
    var n := BitLength(base);
    BitLengthBound(base);
    PowBaseMono(base, Pow(2, n), power);
    PowPow(2, n, power);
    PowMono(2, n * power, 28 * limbs - 1);
    PowStrict(2, 28 * limbs - 1, 28 * limbs);
    Pow2Limbs(limbs);
  }

  lemma {:induction false} TwosValue(base: int, odd: int, shifts: nat, power: nat)
    requires base == odd * Pow(2, shifts) && odd >= 0 && base >= 0
    ensures Pow(odd, power) * Pow(2, shifts * power) == Pow(base, power)
  {
    PowPow(2, shifts, power);
    PowMul(odd, Pow(2, shifts), power);
  }

  /** Strips the factors of two and measures what is left. */
  method SplitBase(base: uint16) returns (odd: uint16, shifts: nat, bitSize: nat)
    requires base != 0
    ensures odd > 0 && odd as int == OddPart(base as int) && base as int == odd as int * Pow(2, shifts)
    ensures bitSize == BitLength(odd as int)
  {
    odd, shifts := base, 0;
    while odd % 2 == 0
      invariant odd > 0 && OddPart(odd as int) == OddPart(base as int)
      invariant base as int == odd as int * Pow(2, shifts)
      decreases odd
    {
      HalveBase(odd as int, Pow(2, shifts));
      odd := odd / 2;
      shifts := shifts + 1;
    }
    bitSize := 0;
    var rest := odd;
    while rest != 0
      invariant bitSize + BitLength(rest as int) == BitLength(odd as int)
    {
      rest := rest / 2;
      bitSize := bitSize + 1;
    }
  }

  lemma {:induction false} HalveBase(n: int, p: int)
    requires n % 2 == 0
    ensures n * p == (n / 2) * (2 * p)
  {
  }

  /** The mask below the exponent's top bit. */
  method StartMask(power: nat) returns (mask: nat)
    requires power > 0
    ensures mask == MaskOf(TopBit(power))
  {
    TopBitBounds(power);
    mask := 1;
    ghost var e := 0;
    while power >= mask
      invariant mask == Pow(2, e) && (e > 0 ==> Pow(2, e - 1) <= power)
      decreases power - mask
    {
      mask := mask * 2;
      e := e + 1;
    }
    if e > TopBit(power) + 1 { PowMono(2, TopBit(power) + 1, e - 1); }
    if e < TopBit(power) + 1 { PowMono(2, e, TopBit(power)); }
    mask := mask / 4;
    if e > 1 { assert Pow(2, e) == 4 * Pow(2, e - 2); }
  }

  lemma {:induction false} PrefixTop(power: nat)
    requires power > 0
    ensures Prefix(power, TopBit(power)) == 1
  {
    TopBitBounds(power);
    DivModUnique(power, Pow(2, TopBit(power)), 1, power - Pow(2, TopBit(power)));
  }

  lemma {:induction false} BaseBits(base: nat)
    requires 0 < base < 0x1_0000
    ensures 1 <= BitLength(base) <= 16
  {
    assert Pow(2, 4) == 16;
    PowAdd(2, 4, 4);
    PowAdd(2, 8, 8);
    BitLengthSmall(base, 16);
  }

  lemma {:induction false} WordSquare(v: int)
    requires 0 < v <= 0xFFFF_FFFF
    ensures 0 < v * v < 0x1_0000_0000_0000_0000
  {
    MulMono(v, 0xFFFF_FFFF, v);
  }

  /** High bits zero: the product fits. Not zero: the value exceeds 32 bits. */
  lemma {:induction false} WordRoom(v: int, base: int, bits: nat)
    requires 0 < v < 0x1_0000_0000_0000_0000 && 0 < base < Pow(2, bits) && bits <= 16
    ensures v / Pow(2, 64 - bits) == 0 ==> 0 < v * base < 0x1_0000_0000_0000_0000
    ensures v / Pow(2, 64 - bits) != 0 ==> v > 0xFFFF_FFFF
  {
    hide Pow;
    Pow2Word(48);
    Pow2Word(64);
    var p := Pow(2, 64 - bits);
    PowAdd(2, 64 - bits, bits);
    PowMono(2, 48, 64 - bits);
    if v < p {
      DivModUnique(v, p, 0, v);
      ProductFits(v, base, p, Pow(2, bits));
    } else {
      FloorBounds(v, p);
    }
  }

  lemma {:induction false} ProductFits(v: int, base: int, p: int, q: int)
    requires 0 < v < p && 0 < base < q
    ensures 0 < v * base < p * q
  {
    MulMono(v, p, base);
    MulStrict(base, q, p);
    MulMono(1, base, v);
  }

  lemma {:induction false} Pow2Word(n: nat)
    ensures n == 48 ==> Pow(2, n) == 0x1_0000_0000_0000
    ensures n == 64 ==> Pow(2, n) == 0x1_0000_0000_0000_0000
  {
    hide Pow;
    Pow2Small(16);
    PowAdd(2, 16, 16);
    PowAdd(2, 32, 16);
    PowAdd(2, 48, 16);
  }

  lemma {:induction false} Pow2Small(n: nat)
    ensures n == 16 ==> Pow(2, n) == 0x1_0000
  {
    assert Pow(2, 4) == 16;
    PowAdd(2, 4, 4);
    PowAdd(2, 8, 8);
  }

  /** The 64-bit rounds. A multiplication that would not fit is delayed, and then this was the last round. */
  method PowerInWord(base: uint16, bitSize: nat, power: nat, maskIn: nat, ghost kIn: nat)
    returns (value: uint64, delayed: bool, mask: nat, ghost k: nat)
    requires base > 0 && bitSize == BitLength(base as int) && power > 0
    requires kIn == TopBit(power) && maskIn == MaskOf(kIn)
    ensures mask == MaskOf(k)
    ensures value as int * (if delayed then base as int else 1) == Pow(base as int, Prefix(power, k))
    ensures delayed ==> value > 0xFFFF_FFFF
    ensures mask == 0 ==> value as int * (if delayed then base as int else 1) == Pow(base as int, power)
  {
    hide Pow, BitLength;
    PrefixTop(power);
    PowBasics(base as int);
    BitLengthBound(base as int);
    BaseBits(base as int);
    mask := maskIn;
    value, delayed, k := base as uint64, false, kIn;
    while mask != 0 && value <= 0xFFFF_FFFF
      invariant mask == MaskOf(k) && value > 0
      invariant delayed ==> value > 0xFFFF_FFFF
      invariant value as int * (if delayed then base as int else 1) == Pow(base as int, Prefix(power, k))
      decreases k
    {
      MaskStep(k);
      PowerStep(base as int, power, k);
      WordSquare(value as int);
      value := value * value;
      if power / mask % 2 != 0 {
        WordRoom(value as int, base as int, bitSize);
        var highBitsZero := value as int / Pow(2, 64 - bitSize) == 0;
        if highBitsZero {
          value := value * base as uint64;
        } else {
          delayed := true;
        }
      }
      mask := mask / 2;
      k := k - 1;
    }
    MaskStep(k);
    PrefixEnd(power);
  }

  const FIVE1_TO_12: seq<uint32> :=
    [5, 25, 125, 625, 3125, 15625, 78125, 390625, 1953125, 9765625, 48828125, 244140625]

  lemma {:induction false} FivePowers()
    ensures Pow(5, 13) == 1220703125 && Pow(5, 27) == 0x6765_c793_fa10_079d
  {
    assert Pow(5, 3) == 125;
    PowAdd(5, 3, 3);
    PowAdd(5, 6, 6);
    PowAdd(5, 12, 1);
    PowAdd(5, 13, 13);
    PowAdd(5, 26, 1);
  }

  lemma {:induction false} FiveTable(k: nat)
    requires 1 <= k <= 12
    ensures FIVE1_TO_12[k - 1] as int == Pow(5, k)
    decreases k
  {
    if k > 1 { FiveTable(k - 1); }
  }

  lemma {:induction false} FiveStep(power: nat, remaining: nat, chunk: nat, m: nat)
    requires chunk <= remaining <= power
    ensures Pow(5, chunk) * (Pow(5, power - remaining) * m) == Pow(5, power - (remaining - chunk)) * m
    ensures Pow(5, power - (remaining - chunk)) * m <= Pow(5, power) * m
  {
    hide Pow;
    PowAdd(5, chunk, power - remaining);
    PowMono(5, power - (remaining - chunk), power);
    MulMono(Pow(5, power - (remaining - chunk)), Pow(5, power), m);
    assert Pow(5, chunk) * (Pow(5, power - remaining) * m) == (Pow(5, chunk) * Pow(5, power - remaining)) * m;
  }

  lemma {:induction false} PowerOfTenValue(m: int, e: nat, power: nat)
    ensures ((Pow(5, power) * m) * BPow(e)) * Pow(2, power) == (m * BPow(e)) * Pow(10, power)
  {
    hide Pow, BPow;
    PowMul(5, 2, power);
    var f, t, p := Pow(5, power), Pow(2, power), BPow(e);
    assert ((f * m) * p) * t == (m * p) * (f * t);
  }
}
