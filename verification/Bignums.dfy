/** The fixed-capacity big integer: 128 limbs of 28 bits and a limb exponent, updated in place. */
module Bignums {
  import opened Arith
  import opened Limbs
  import opened Columns
  import opened Decimals
  import opened Powers
  import opened LimbArith

  class Bignum {
    const bigits: array<uint32>
    var used: nat
    var exponent: nat

    /** Limbs are in range and every limb at or above `used` is zero. */
    ghost predicate Shape()
      reads this, bigits
    {
      bigits.Length == CAPACITY && used <= CAPACITY &&
      Small(bigits[..]) && Zeros(bigits[..], used)
    }

    predicate IsClamped()
      requires used <= bigits.Length
      reads this, bigits
    {
      used == 0 || bigits[used - 1] != 0
    }

    ghost predicate Valid()
      reads this, bigits
    {
      Shape() && IsClamped() && (used == 0 ==> exponent == 0)
    }

    ghost function Mantissa(): nat
      reads bigits
    {
      Val(bigits[..])
    }

    ghost function Value(): nat
      reads this, bigits
    {
      Mantissa() * BPow(exponent)
    }

    function BigitLength(): nat
      reads this
    {
      used + exponent
    }

    /** The two numbers share no storage. */
    ghost predicate Apart(other: Bignum) {
      this != other && bigits != other.bigits
    }

    constructor ()
      ensures Valid() && Value() == 0 && fresh(bigits)
    {
      bigits := new uint32[CAPACITY](_ => 0);
      used, exponent := 0, 0;
      new;
      ValZeros(bigits[..]);
    }

    method Zero()
      requires Shape()
      modifies this, bigits
      ensures Valid() && used == 0 && exponent == 0 && Value() == 0
      ensures forall i :: 0 <= i < CAPACITY ==> bigits[i] == 0
    {
      for i := 0 to used
        invariant Shape() && used == old(used)
        invariant forall j :: 0 <= j < i ==> bigits[j] == 0
      {
        bigits[i] := 0;
      }
      used, exponent := 0, 0;
      ValZeros(bigits[..]);
    }

    method Clamp()
      requires Shape()
      modifies this
      ensures Valid() && Value() == old(Value()) && Mantissa() == old(Mantissa())
      ensures used <= old(used)
      ensures exponent == if used == 0 then 0 else old(exponent)
      ensures old(IsClamped()) ==> used == old(used)
    {
      while used > 0 && bigits[used - 1] == 0
        invariant Shape() && used <= old(used) && exponent == old(exponent)
        invariant old(IsClamped()) ==> used == old(used)
      {
        used := used - 1;
      }
      if used == 0 {
        ValZeros(bigits[..]);
        exponent := 0;
      }
    }

    method AssignUInt16(value: uint16)
      requires Valid()
      modifies this, bigits
      ensures Valid() && exponent == 0 && used <= 1
      ensures Value() == value as int
    {
      Zero();
      if value == 0 { return; }
      ghost var s := bigits[..];
      bigits[0] := value as uint32;
      used := 1;
      ValUpdate(s, 0, value as uint32);
      assert bigits[..] == s[0 := value as uint32];
    }

    method AssignUInt64(value: uint64)
      requires Valid()
      modifies this, bigits
      ensures Valid() && exponent == 0 && used <= 3
      ensures Value() == value as int
    {
      Zero();
      if value == 0 { return; }
      var rest := value;
      for i := 0 to 3
        invariant bigits.Length == CAPACITY && Small(bigits[..]) && Zeros(bigits[..], i)
        invariant used == 0 && exponent == 0
        invariant rest as int < [0x1_0000_0000_0000_0000, 0x10_0000_0000, 0x100, 1][i]
        invariant Val(bigits[..]) + rest as int * BPow(i) == value as int
      {
        ghost var s := bigits[..];
        var digit := (rest % 0x1000_0000) as uint32;
        bigits[i] := digit;
        assert bigits[..] == s[i := digit];
        ValUpdate(s, i, digit);
        rest := rest / 0x1000_0000;
      }
      used := 3;
      Clamp();
    }

    method AssignBignum(other: Bignum)
      requires Valid() && other.Valid() && Apart(other)
      modifies this, bigits
      ensures Valid() && Value() == other.Value() && Mantissa() == other.Mantissa()
      ensures used == other.used && exponent == other.exponent
    {
      hide BPow, Val;
      exponent := other.exponent;
      for i := 0 to other.used
        invariant used == old(used) && exponent == other.exponent
        invariant forall j :: 0 <= j < i ==> bigits[j] == other.bigits[j]
        invariant forall j :: i <= j < CAPACITY ==> bigits[j] == old(bigits[j])
      {
        bigits[i] := other.bigits[i];
      }
      var i := other.used;
      while i < used
        invariant used == old(used) && exponent == other.exponent
        invariant other.used <= i && (i <= used || i == other.used)
        invariant forall j :: 0 <= j < other.used ==> bigits[j] == other.bigits[j]
        invariant forall j :: other.used <= j < i ==> bigits[j] == 0
        invariant forall j :: i <= j < CAPACITY ==> bigits[j] == old(bigits[j])
      {
        bigits[i] := 0;
        i := i + 1;
      }
      used := other.used;
      assert bigits[..] == other.bigits[..];
    }

    /** Copies the limbs `zeroDigits` places up, from the top down so that none is lost. */
    method CopyLimbsUp(zeroDigits: nat)
      requires Shape() && used + zeroDigits <= CAPACITY
      modifies bigits
      ensures bigits[zeroDigits..used + zeroDigits] == old(bigits[..used])
      ensures Zeros(bigits[..], used + zeroDigits)
    {
      var i := used - 1;
      while i >= 0
        invariant -1 <= i < used
        invariant forall j :: 0 <= j <= i ==> bigits[j] == old(bigits[j])
        invariant forall j :: i + zeroDigits < j < used + zeroDigits ==> bigits[j] == old(bigits[j - zeroDigits])
        invariant forall j :: used + zeroDigits <= j < CAPACITY ==> bigits[j] == 0
      {
        bigits[i + zeroDigits] := bigits[i];
        i := i - 1;
      }
    }

    method ClearLow(n: nat)
      requires n <= CAPACITY == bigits.Length
      modifies bigits
      ensures Zeros(bigits[..n], 0) && bigits[n..] == old(bigits[n..])
    {
      for k := 0 to n
        invariant forall j :: 0 <= j < k ==> bigits[j] == 0
        invariant forall j :: n <= j < CAPACITY ==> bigits[j] == old(bigits[j])
      {
        bigits[k] := 0;
      }
    }

    /** Moves the limbs up by `zeroDigits` places and fills the gap with zeros. */
    method MoveLimbsUp(zeroDigits: nat)
      requires Shape() && used + zeroDigits <= CAPACITY
      modifies bigits
      ensures Mantissa() == BPow(zeroDigits) * old(Mantissa())
      ensures Small(bigits[..]) && Zeros(bigits[..], used + zeroDigits)
      ensures used > 0 ==> bigits[used + zeroDigits - 1] == old(bigits[used - 1])
    {
      hide BPow, Val;
      ghost var s := bigits[..];
      CopyLimbsUp(zeroDigits);
      ghost var t := bigits[..];
      ClearLow(zeroDigits);
      assert bigits[..][..zeroDigits] == bigits[..zeroDigits] && bigits[..][zeroDigits..] == t[zeroDigits..];
      assert t[zeroDigits..used + zeroDigits] == s[..used];
      MovedTail(t, bigits[..], used, zeroDigits);
      MovedUp(s, bigits[..], used, zeroDigits);
    }

    /** Replaces hidden zero limbs by stored ones until `exponent <= other.exponent`. */
    method Align(other: Bignum)
      requires Valid() && Apart(other)
      requires exponent > other.exponent ==> BigitLength() - other.exponent <= CAPACITY
      modifies this, bigits
      ensures Valid() && Value() == old(Value()) && BigitLength() == old(BigitLength())
      ensures exponent == Min(old(exponent), other.exponent)
      ensures used > 0 ==> bigits[used - 1] == old(bigits[used - 1])
    {
      hide BPow, Val;
      if exponent > other.exponent {
        var zeroDigits := exponent - other.exponent;
        ghost var m := Mantissa();
        MoveLimbsUp(zeroDigits);
        used := used + zeroDigits;
        exponent := exponent - zeroDigits;
        BPowAdd(zeroDigits, exponent);
        MulShift(BPow(zeroDigits), m, BPow(exponent));
      }
    }

    /** The first loop of AddBignum: adds the limbs of `other`, leaving a carry at `pos`. */
    method AddLimbs(other: Bignum) returns (pos: nat, carry: uint32)
      requires Valid() && other.Valid() && Apart(other) && exponent <= other.exponent
      requires other.BigitLength() - exponent < CAPACITY
      modifies bigits
      ensures pos == other.BigitLength() - exponent && carry <= 1
      ensures Small(bigits[..]) && (forall j :: pos <= j < CAPACITY ==> bigits[j] == old(bigits[j]))
      ensures Mantissa() + carry as int * BPow(pos)
           == old(Mantissa()) + BPow(other.exponent - exponent) * other.Mantissa()
      ensures other.used > 0 && carry == 0 ==> bigits[pos - 1] != 0
    {
      hide BPow, Val;
      pos, carry := other.exponent - exponent, 0;
      ghost var off, m, t := pos, Mantissa(), other.bigits[..];
      ValEmpty(t[..0]);
      for i := 0 to other.used
        invariant pos == off + i && carry <= 1
        invariant Small(bigits[..]) && (forall j :: pos <= j < CAPACITY ==> bigits[j] == old(bigits[j]))
        invariant Mantissa() + carry as int * BPow(pos) == m + BPow(off) * Val(t[..i])
        invariant 0 < i == other.used && carry == 0 ==> bigits[pos - 1] != 0
      {
        ghost var cur := bigits[..];
        var sum := bigits[pos] + other.bigits[i] + carry;
        bigits[pos] := sum % 0x1000_0000;
        assert bigits[..] == cur[pos := sum % 0x1000_0000];
        LimbStep(cur, pos, t[i] as int, carry as int, sum % 0x1000_0000, (sum / 0x1000_0000) as int);
        OperandStep(t, i, off);
        carry := sum / 0x1000_0000;
        pos := pos + 1;
      }
      ValTrim(t, other.used);
    }

    /** The second loop of AddBignum: carries past the last limb of the operand. */
    method PropagateCarry(from: nat, carryIn: uint32, ghost top: nat) returns (pos: nat)
      requires bigits.Length == CAPACITY && Small(bigits[..])
      requires from <= top < CAPACITY && Zeros(bigits[..], top) && carryIn <= 1
      modifies bigits
      ensures from <= pos <= top + 1 && Small(bigits[..]) &&
              (forall j :: pos <= j < CAPACITY ==> bigits[j] == old(bigits[j]))
      ensures Mantissa() == old(Mantissa()) + carryIn as int * BPow(from)
      ensures if carryIn == 0 then pos == from && bigits[..] == old(bigits[..])
              else pos > from && bigits[pos - 1] != 0
    {
      hide BPow, Val;
      pos := from;
      var carry := carryIn;
      while carry != 0
        invariant from <= pos <= top + 1 && carry <= 1 && (pos == top + 1 ==> carry == 0)
        invariant Small(bigits[..]) && (forall j :: pos <= j < CAPACITY ==> bigits[j] == old(bigits[j]))
        invariant Mantissa() + carry as int * BPow(pos) == old(Mantissa()) + carryIn as int * BPow(from)
        invariant pos == from ==> carry == carryIn && bigits[..] == old(bigits[..])
        invariant pos > from ==> carryIn == 1 && (carry == 0 ==> bigits[pos - 1] != 0)
        decreases top + 1 - pos
      {
        ghost var cur := bigits[..];
        var sum := bigits[pos] + carry;
        bigits[pos] := sum % 0x1000_0000;
        assert bigits[..] == cur[pos := sum % 0x1000_0000];
        LimbStep(cur, pos, 0, carry as int, sum % 0x1000_0000, (sum / 0x1000_0000) as int);
        carry := sum / 0x1000_0000;
        pos := pos + 1;
      }
    }

    /** Both loops of AddBignum, on numbers that are already aligned. */
    method AddAligned(other: Bignum) returns (pos: nat)
      requires Valid() && other.Valid() && Apart(other) && exponent <= other.exponent
      requires Max(used, other.BigitLength() - exponent) < CAPACITY
      modifies bigits
      ensures Mantissa() == old(Mantissa()) + BPow(other.exponent - exponent) * other.Mantissa()
      ensures Small(bigits[..]) && pos <= CAPACITY && Zeros(bigits[..], Max(pos, used))
      ensures Max(pos, used) > 0 ==> bigits[Max(pos, used) - 1] != 0
    {
      hide BPow, Val;
      ghost var s := bigits[..];
      var carry;
      pos, carry := AddLimbs(other);
      ghost var s', n := bigits[..], Max(used, pos);
      TailKept(s, s', pos, used);
      pos := PropagateCarry(pos, carry, n);
      TailKept(s', bigits[..], pos, n);
    }

    method AddBignum(other: Bignum)
      requires Valid() && other.Valid() && Apart(other)
      requires 1 + Max(BigitLength(), other.BigitLength()) - Min(exponent, other.exponent) <= CAPACITY
      modifies this, bigits
      ensures Valid() && Value() == old(Value()) + other.Value()
    {
      hide BPow, Val;
      Align(other);
      ghost var m := Mantissa();
      var pos := AddAligned(other);
      used := Max(pos, used);
      OffsetSum(m, Mantissa(), other.Mantissa(), other.exponent - exponent, exponent);
    }

    /** A clamped number is enclosed by the powers of the base around its length. */
    lemma {:induction false} Range()
      requires Valid()
      ensures Value() < BPow(BigitLength())
      ensures used == 0 <==> Value() == 0
      ensures used > 0 ==> BPow(BigitLength() - 1) <= Value()
      ensures used > 0 ==> var top := bigits[used - 1] as int; var unit := BPow(BigitLength() - 1);
                top * unit <= Value() < (top + 1) * unit
    {
      hide BPow, Val;
      if used == 0 {
        ValZeros(bigits[..]);
      } else {
        ScaledRange(bigits[..], used, exponent);
      }
    }

    /** Values bound lengths. */
    lemma {:induction false} LengthBound(k: nat)
      requires Valid() && Value() < BPow(k)
      ensures BigitLength() <= k
    {
      hide BPow, Val;
      Range();
      if BigitLength() > k {
        BPowMono(k, BigitLength() - 1);
      }
    }

    lemma {:induction false} LengthOrder(other: Bignum)
      requires Valid() && other.Valid() && Value() <= other.Value()
      ensures BigitLength() <= other.BigitLength()
    {
      hide BPow, Val;
      other.Range();
      LengthBound(other.BigitLength());
    }

    /** Takes `amount` from one limb; the wrapped 32-bit difference yields limb and borrow. */
    method SubtractAt(pos: nat, amount: uint32) returns (borrow: uint32)
      requires bigits.Length == CAPACITY && pos < CAPACITY && Small(bigits[..]) && amount as int <= BASE
      modifies bigits
      ensures borrow <= 1 && Small(bigits[..]) && (borrow == 1 ==> amount > 0)
      ensures bigits[..] == old(bigits[..])[pos := bigits[pos]]
      ensures Mantissa() - borrow as int * BPow(pos + 1) == old(Mantissa()) - amount as int * BPow(pos)
    {
      ghost var cur := bigits[..];
      var difference := Wrap32(bigits[pos] as int - amount as int);
      BorrowStep(bigits[pos] as int, amount as int);
      borrow := difference / 0x8000_0000;
      bigits[pos] := difference % 0x1000_0000;
      assert bigits[..] == cur[pos := bigits[pos]];
      LimbBorrow(cur, pos, amount as int, bigits[pos], borrow as int);
    }

    /** The first loop of SubtractBignum. */
    method SubtractLimbs(other: Bignum) returns (pos: nat, borrow: uint32)
      requires Valid() && other.Valid() && Apart(other) && exponent <= other.exponent
      requires other.BigitLength() <= BigitLength()
      modifies bigits
      ensures pos == other.BigitLength() - exponent && borrow <= 1
      ensures Small(bigits[..]) && (forall j :: pos <= j < CAPACITY ==> bigits[j] == old(bigits[j]))
      ensures Mantissa() - borrow as int * BPow(pos)
           == old(Mantissa()) - BPow(other.exponent - exponent) * other.Mantissa()
    {
      hide BPow, Val;
      pos, borrow := other.exponent - exponent, 0;
      ghost var off, m, t := pos, Mantissa(), other.bigits[..];
      ValEmpty(t[..0]);
      for i := 0 to other.used
        invariant pos == off + i && borrow <= 1
        invariant Small(bigits[..]) && (forall j :: pos <= j < CAPACITY ==> bigits[j] == old(bigits[j]))
        invariant Mantissa() - borrow as int * BPow(pos) == m - BPow(off) * Val(t[..i])
      {
        OperandStep(t, i, off);
        TimesSum(t[i] as int, borrow as int, BPow(pos));
        borrow := SubtractAt(pos, other.bigits[i] + borrow);
        pos := pos + 1;
      }
      ValTrim(t, other.used);
    }

    /** The second loop of SubtractBignum: borrows past the last limb of the operand. */
    method PropagateBorrow(from: nat, borrowIn: uint32)
      requires Shape() && from <= used && borrowIn <= 1
      requires borrowIn as int * BPow(from) <= Mantissa()
      modifies bigits
      ensures Small(bigits[..]) && Zeros(bigits[..], used)
      ensures Mantissa() == old(Mantissa()) - borrowIn as int * BPow(from)
    {
      hide BPow, Val;
      var pos, borrow := from, borrowIn;
      while borrow != 0
        invariant from <= pos <= used && borrow <= 1
        invariant Shape()
        invariant Mantissa() - borrow as int * BPow(pos) == old(Mantissa()) - borrowIn as int * BPow(from)
        decreases used - pos, borrow
      {
        BelowTop(bigits[..], used);
        MulOne(borrow as int, BPow(pos));
        borrow := SubtractAt(pos, borrow);
        pos := pos + 1;
      }
    }

    /** Both loops of SubtractBignum, on numbers that are already aligned. */
    method SubtractAligned(other: Bignum)
      requires Valid() && other.Valid() && Apart(other) && exponent <= other.exponent
      requires other.BigitLength() <= BigitLength()
      requires BPow(other.exponent - exponent) * other.Mantissa() <= Mantissa()
      modifies bigits
      ensures Mantissa() == old(Mantissa()) - BPow(other.exponent - exponent) * other.Mantissa()
      ensures Small(bigits[..]) && Zeros(bigits[..], used)
    {
      hide BPow, Val;
      ghost var s := bigits[..];
      var pos, borrow := SubtractLimbs(other);
      TailKept(s, bigits[..], pos, used);
      PropagateBorrow(pos, borrow);
    }

    method SubtractBignum(other: Bignum)
      requires Valid() && other.Valid() && Apart(other) && other.Value() <= Value()
      requires exponent > other.exponent ==> BigitLength() - other.exponent <= CAPACITY
      modifies this, bigits
      ensures Valid() && Value() == old(Value()) - other.Value()
      ensures exponent <= Min(old(exponent), other.exponent)
      ensures BigitLength() <= old(BigitLength())
    {
      hide BPow, Val;
      Align(other);
      ghost var m := Mantissa();
      other.LengthOrder(this);
      OffsetLess(m, other.Mantissa(), other.exponent - exponent, exponent);
      SubtractAligned(other);
      OffsetDifference(m, Mantissa(), other.Mantissa(), other.exponent - exponent, exponent);
      Clamp();
    }

    /** The loop of BigitsShiftLeft; `carry` is what leaves the top limb. */
    method ShiftLimbs(shift: nat) returns (carry: uint32)
      requires Shape() && shift < 28
      modifies bigits
      ensures Shape() && carry as int < Pow(2, shift)
      ensures Mantissa() + carry as int * BPow(used) == Pow(2, shift) * old(Mantissa())
      ensures used > 0 && old(bigits[used - 1]) != 0 ==> carry != 0 || bigits[used - 1] != 0
    {
      hide BPow, Val;
      var up, down := Pow(2, shift), Pow(2, 28 - shift);
      PowAdd(2, shift, 28 - shift);
      Pow2Base();
      ghost var s := bigits[..];
      carry := 0;
      ValEmpty(s[..0]);
      for i := 0 to used
        invariant Shape() && carry as int < up
        invariant forall j :: i <= j < CAPACITY ==> bigits[j] == s[j]
        invariant Mantissa() + carry as int * BPow(i) == Val(s) + (up - 1) * Val(s[..i])
        invariant i == used > 0 && s[used - 1] != 0 ==> carry != 0 || bigits[used - 1] != 0
      {
        ghost var cur := bigits[..];
        ShiftStep(bigits[i] as int, up, down, carry as int);
        var newCarry := bigits[i] as int / down;
        var digit := Wrap32(Wrap32(up * bigits[i] as int) as int + carry as int) % 0x1000_0000;
        bigits[i] := digit;
        assert bigits[..] == cur[i := digit];
        MultiplyStep(cur, s, i, up, carry as int, digit, newCarry);
        CarryFits(shift);
        carry := newCarry as uint32;
      }
      ValTrim(s, used);
      MultiplyDone(up, Val(s));
    }

    method BigitsShiftLeft(shift: nat)
      requires Valid() && shift < 28 && 0 < used < CAPACITY
      modifies this, bigits
      ensures Valid() && exponent == old(exponent) && used <= old(used) + 1
      ensures Mantissa() == Pow(2, shift) * old(Mantissa())
    {
      hide BPow, Val;
      var carry := ShiftLimbs(shift);
      if carry != 0 {
        ghost var cur := bigits[..];
        CarryFits(shift);
        LimbStep(cur, used, carry as int, 0, carry, 0);
        bigits[used] := carry;
        assert bigits[..] == cur[used := carry];
        used := used + 1;
      }
    }

    method ShiftLeft(shift: nat)
      requires Valid() && used < CAPACITY
      modifies this, bigits
      ensures Valid() && Value() == old(Value()) * Pow(2, shift) && used <= old(used) + 1
    {
      hide BPow, Val;
      if used == 0 {
        Range();
        return;
      }
      ghost var e, m := exponent, Mantissa();
      exponent := exponent + shift / 28;
      BigitsShiftLeft(shift % 28);
      ShiftValue(m, e, shift);
    }

    /** The closing loop of both multiplications: stores the carry as new top limbs. */
    method AppendCarry(carryIn: uint64, ghost total: nat)
      requires Shape() && (carryIn != 0 || IsClamped())
      requires Mantissa() + carryIn as int * BPow(used) == total < BPow(bigits.Length)
      modifies this, bigits
      ensures Shape() && IsClamped() && exponent == old(exponent) && used >= old(used)
      ensures Mantissa() == total
    {
      hide BPow, Val;
      var carry := carryIn;
      while carry != 0
        invariant Shape() && exponent == old(exponent) && used >= old(used)
        invariant carry == 0 ==> IsClamped()
        invariant Mantissa() + carry as int * BPow(used) == total
      {
        carry := AppendLimb(carry, total);
      }
    }

    method AppendLimb(carryIn: uint64, ghost total: nat) returns (carry: uint64)
      requires Shape() && carryIn != 0
      requires Mantissa() + carryIn as int * BPow(used) == total < BPow(bigits.Length)
      modifies this, bigits
      ensures Shape() && exponent == old(exponent) && used == old(used) + 1
      ensures carry == carryIn / 0x1000_0000 && (carry == 0 ==> IsClamped())
      ensures Mantissa() + carry as int * BPow(used) == total
    {
      hide BPow, Val;
      ghost var cur := bigits[..];
      CarryNeedsLimb(Val(cur), carryIn as int, used, bigits.Length);
      var digit := (carryIn % 0x1000_0000) as uint32;
      carry := carryIn / 0x1000_0000;
      LimbStep(cur, used, 0, carryIn as int, digit, carry as int);
      bigits[used] := digit;
      assert bigits[..] == cur[used := digit];
      used := used + 1;
    }

    /** The loop of MultiplyByUInt32: no product exceeds 64 bits because the carry stays at most the factor. */
    method MultiplyLimbs32(factor: uint32) returns (carry: uint64)
      requires Shape() && factor > 0
      modifies bigits
      ensures Shape() && carry <= factor as uint64
      ensures Mantissa() + carry as int * BPow(used) == factor as int * old(Mantissa())
      ensures used > 0 && old(bigits[used - 1]) != 0 ==> carry != 0 || bigits[used - 1] != 0
    {
      hide BPow, Val;
      ghost var s := bigits[..];
      carry := 0;
      ValEmpty(s[..0]);
      for i := 0 to used
        invariant Shape() && carry <= factor as uint64
        invariant forall j :: i <= j < CAPACITY ==> bigits[j] == s[j]
        invariant Mantissa() + carry as int * BPow(i) == Val(s) + (factor as int - 1) * Val(s[..i])
        invariant i == used > 0 && s[used - 1] != 0 ==> carry != 0 || bigits[used - 1] != 0
      {
        ghost var cur := bigits[..];
        ProductBound(factor as int, bigits[i] as int, carry as int);
        var product := factor as uint64 * bigits[i] as uint64 + carry;
        var digit := (product % 0x1000_0000) as uint32;
        bigits[i] := digit;
        assert bigits[..] == cur[i := digit];
        MultiplyStep(cur, s, i, factor as int, carry as int, digit, product as int / 0x1000_0000);
        carry := product / 0x1000_0000;
      }
      ValTrim(s, used);
      MultiplyDone(factor as int, Val(s));
    }

    method MultiplyByUInt32(factor: uint32)
      requires Valid() && factor as int * Mantissa() < BPow(bigits.Length)
      modifies this, bigits
      ensures Valid() && Value() == old(Value()) * factor as int
      ensures Mantissa() == factor as int * old(Mantissa()) && exponent <= old(exponent)
      ensures factor > 0 ==> exponent == old(exponent)
    {
      hide BPow, Val;
      if factor == 1 { return; }
      if factor == 0 {
        Zero();
        return;
      }
      if used == 0 {
        Range();
        return;
      }
      var carry := MultiplyLimbs32(factor);
      AppendCarry(carry, factor as int * old(Mantissa()));
      ProductValue(Mantissa(), old(Mantissa()), factor as int, BPow(exponent));
    }

    /** The loop of MultiplyByUInt64: the 64x28-bit product is formed from two halves without wrapping. */
    method MultiplyLimbs64(factor: uint64) returns (carry: uint64)
      requires Shape() && factor > 0
      modifies bigits
      ensures Shape() && carry < factor
      ensures Mantissa() + carry as int * BPow(used) == factor as int * old(Mantissa())
      ensures used > 0 && old(bigits[used - 1]) != 0 ==> carry != 0 || bigits[used - 1] != 0
    {
      hide BPow, Val;
      ghost var s := bigits[..];
      carry := 0;
      ValEmpty(s[..0]);
      var low, high := factor % 0x1_0000_0000, factor / 0x1_0000_0000;
      for i := 0 to used
        invariant Shape() && carry < factor
        invariant forall j :: i <= j < CAPACITY ==> bigits[j] == s[j]
        invariant Mantissa() + carry as int * BPow(i) == Val(s) + (factor as int - 1) * Val(s[..i])
        invariant i == used > 0 && s[used - 1] != 0 ==> carry != 0 || bigits[used - 1] != 0
      {
        ghost var cur := bigits[..];
        ghost var limb := bigits[i] as int;
        HalfProducts(low as int, high as int, limb, carry as int);
        var productLow := low * bigits[i] as uint64;
        var productHigh := high * bigits[i] as uint64;
        var tmp := carry % 0x1000_0000 + productLow;
        var digit := (tmp % 0x1000_0000) as uint32;
        bigits[i] := digit;
        assert bigits[..] == cur[i := digit];
        var newCarry := carry / 0x1000_0000 + tmp / 0x1000_0000 + productHigh * 16;
        MultiplyStep(cur, s, i, factor as int, carry as int, digit, newCarry as int);
        carry := newCarry;
      }
      ValTrim(s, used);
      MultiplyDone(factor as int, Val(s));
    }

    method MultiplyByUInt64(factor: uint64)
      requires Valid() && factor as int * Mantissa() < BPow(bigits.Length)
      modifies this, bigits
      ensures Valid() && Value() == old(Value()) * factor as int
      ensures Mantissa() == factor as int * old(Mantissa()) && exponent <= old(exponent)
      ensures factor > 0 ==> exponent == old(exponent)
    {
      hide BPow, Val;
      if factor == 1 { return; }
      if factor == 0 {
        Zero();
        return;
      }
      if used == 0 { Range(); }
      var carry := MultiplyLimbs64(factor);
      AppendCarry(carry, factor as int * old(Mantissa()));
      ProductValue(Mantissa(), old(Mantissa()), factor as int, BPow(exponent));
    }

    /** The first loop of SubtractTimes; `borrow` collects the wrapped bit and the product overflow. */
    method SubtractTimesLimbs(other: Bignum, factor: nat) returns (borrow: uint32)
      requires Valid() && other.Valid() && Apart(other) && exponent <= other.exponent
      requires other.BigitLength() <= BigitLength() && factor < BASE
      modifies bigits
      ensures borrow as int <= factor && Small(bigits[..])
      ensures forall j :: other.BigitLength() - exponent <= j < CAPACITY ==> bigits[j] == old(bigits[j])
      ensures Mantissa() - borrow as int * BPow(other.BigitLength() - exponent)
           == old(Mantissa()) - factor * (BPow(other.exponent - exponent) * other.Mantissa())
    {
      hide BPow, Val;
      borrow := 0;
      ghost var off, m, t, taken := other.exponent - exponent, Mantissa(), other.bigits[..], 0;
      ValEmpty(t[..0]);
      for i := 0 to other.used
        invariant borrow as int <= factor
        invariant Small(bigits[..]) && (forall j :: off + i <= j < CAPACITY ==> bigits[j] == old(bigits[j]))
        invariant Mantissa() - borrow as int * BPow(off + i) == m - taken
        invariant taken == factor * (BPow(off) * Val(t[..i]))
      {
        OperandStep(t, i, off);
        DistributeSum(factor, BPow(off) * Val(t[..i]), t[i] as int * BPow(off + i));
        taken := taken + factor * (t[i] as int * BPow(off + i));
        BPowStep(off + i);
        ghost var cur := Mantissa();
        TimesBound(factor, other.bigits[i] as int, borrow as int);
        var remove := borrow as uint64 + factor as uint64 * other.bigits[i] as uint64;
        var bit := SubtractAt(other.exponent - exponent + i, (remove % 0x1000_0000) as uint32);
        TimesStep(cur, Mantissa(), factor, t[i] as int, borrow as int, bit as int, BPow(off + i));
        borrow := bit + (remove / 0x1000_0000) as uint32;
      }
      ValTrim(t, other.used);
    }

    /** The second loop of SubtractTimes: it may return early, and the number is clamped all the same. */
    method SubtractTimesTail(from: nat, borrowIn: uint32, ghost left: nat)
      requires Shape() && from <= used && borrowIn as int < BASE
      requires from < used ==> bigits[used - 1] != 0
      requires used == 0 ==> exponent == 0
      requires Mantissa() - borrowIn as int * BPow(from) == left
      modifies this, bigits
      ensures Valid() && Value() == left * BPow(old(exponent)) && used <= old(used)
      ensures exponent == if used == 0 then 0 else old(exponent)
    {
      hide BPow, Val;
      ghost var s := bigits[..];
      var borrow, i := borrowIn, from;
      while i < used
        invariant i <= used == old(used) && exponent == old(exponent)
        invariant Shape() && (forall j :: i <= j < CAPACITY ==> bigits[j] == s[j]) && borrow as int < BASE
        invariant Mantissa() - borrow as int * BPow(i) == left
      {
        if borrow == 0 { return; }
        borrow := SubtractAt(i, borrow);
        i := i + 1;
      }
      BelowTop(bigits[..], used);
      NoBorrow(Mantissa(), borrow as int, BPow(used), left);
      Clamp();
    }

    /** The short form of SubtractTimes for factors below 3. */
    method SubtractRepeatedly(other: Bignum, factor: nat)
      requires Valid() && other.Valid() && Apart(other) && exponent <= other.exponent
      requires factor * other.Value() <= Value()
      modifies this, bigits
      ensures Valid() && Value() == old(Value()) - factor * other.Value()
      ensures exponent <= old(exponent) && BigitLength() <= old(BigitLength())
    {
      hide BPow, Val;
      for i := 0 to factor
        invariant Valid() && Value() == old(Value()) - i * other.Value()
        invariant exponent <= old(exponent) && BigitLength() <= old(BigitLength())
      {
        MulMono(i + 1, factor, other.Value());
        TimesSuccessor(i, other.Value());
        SubtractBignum(other);
      }
    }

    method SubtractTimes(other: Bignum, factor: nat)
      requires Valid() && other.Valid() && Apart(other) && exponent <= other.exponent
      requires factor < BASE && factor * other.Value() <= Value()
      modifies this, bigits
      ensures Valid() && Value() == old(Value()) - factor * other.Value()
      ensures exponent <= old(exponent) && BigitLength() <= old(BigitLength())
    {
      hide BPow, Val;
      if factor < 3 {
        SubtractRepeatedly(other, factor);
        return;
      }
      MulMono(1, factor, other.Value());
      other.LengthOrder(this);
      ghost var m, s := Mantissa(), bigits[..];
      ghost var off := other.exponent - exponent;
      ScaledOffsetLess(m, other.Mantissa(), factor, off, exponent);
      ghost var left := m - factor * (BPow(off) * other.Mantissa());
      ScaledOffsetDifference(left, m, other.Mantissa(), factor, off, exponent);
      var borrow := SubtractTimesLimbs(other, factor);
      TailKept(s, bigits[..], other.BigitLength() - exponent, used);
      SubtractTimesTail(other.used + (other.exponent - exponent), borrow, left);
    }

    /** The limb at a position counted from the value's own limb 0, hidden zeros included. */
    function BigitAt(index: int): uint32
      requires used <= bigits.Length
      reads this, bigits
    {
      if index >= BigitLength() then 0
      else if index < exponent then 0
      else bigits[index - exponent]
    }

    lemma {:induction false} BigitQuotient(i: nat)
      requires Valid()
      ensures Value() / BPow(i) == BASE * (Value() / BPow(i + 1)) + BigitAt(i) as int
      ensures BigitAt(i) as int < BASE
    {
      hide BPow, Val;
      if i >= BigitLength() {
        Range();
        BPowMono(BigitLength(), i);
        BPowMono(BigitLength(), i + 1);
        SmallDivision(Value(), BPow(i));
        SmallDivision(Value(), BPow(i + 1));
      } else if i < exponent {
        HiddenLimbStep(Mantissa(), exponent, i);
      } else {
        var k := i - exponent;
        ScaledQuotientAbove(Mantissa(), exponent, k);
        ScaledQuotientAbove(Mantissa(), exponent, k + 1);
        LimbQuotient(bigits[..], k);
      }
    }

    /** Below its exponent a number has no remainder, above its length no quotient. */
    lemma {:induction false} QuotientEnds(i: nat)
      requires Valid()
      ensures i >= BigitLength() ==> Value() / BPow(i) == 0
      ensures i <= exponent ==> Value() == (Value() / BPow(i)) * BPow(i)
    {
      hide BPow, Val;
      if i >= BigitLength() {
        Range();
        BPowMono(BigitLength(), i);
        SmallDivision(Value(), BPow(i));
      }
      if i <= exponent {
        ScaledQuotientBelow(Mantissa(), exponent, i);
      }
    }

    static method Compare(a: Bignum, b: Bignum) returns (r: int)
      requires a.Valid() && b.Valid()
      ensures r == Sign(a.Value() - b.Value())
    {
      hide BPow, Val;
      var lengthA, lengthB := a.BigitLength(), b.BigitLength();
      if lengthA < lengthB {
        if b.Value() <= a.Value() { b.LengthOrder(a); }
        return -1;
      }
      if lengthA > lengthB {
        if a.Value() <= b.Value() { a.LengthOrder(b); }
        return 1;
      }
      var i, lowest := lengthA - 1, Min(a.exponent, b.exponent);
      a.QuotientEnds(lengthA);
      b.QuotientEnds(lengthA);
      while i >= lowest
        invariant -1 <= i && (lowest - 1 <= i || i == lengthA - 1)
        invariant a.Value() / BPow(i + 1) == b.Value() / BPow(i + 1)
      {
        a.BigitQuotient(i);
        b.BigitQuotient(i);
        var bigitA, bigitB := a.BigitAt(i), b.BigitAt(i);
        if bigitA < bigitB {
          QuotientOrder(a.Value(), b.Value(), BPow(i));
          return -1;
        }
        if bigitA > bigitB {
          QuotientOrder(b.Value(), a.Value(), BPow(i));
          return 1;
        }
        i := i - 1;
      }
      a.QuotientEnds(i + 1);
      b.QuotientEnds(i + 1);
      return 0;
    }

    /** Compares a + b with c from the top limb down, carrying at most one unit of borrow. */
    static method PlusCompare(a: Bignum, b: Bignum, c: Bignum) returns (r: int)
      requires a.Valid() && b.Valid() && c.Valid()
      ensures r == Sign(a.Value() + b.Value() - c.Value())
      decreases b.BigitLength() > a.BigitLength()
    {
      hide BPow, Val;
      if a.BigitLength() < b.BigitLength() {
        r := PlusCompare(b, a, c);
        return;
      }
      if a.BigitLength() + 1 < c.BigitLength() {
        ShortSum(a, b, c);
        return -1;
      }
      if a.BigitLength() > c.BigitLength() {
        if a.Value() <= c.Value() { a.LengthOrder(c); }
        return 1;
      }
      if a.exponent >= b.BigitLength() && a.BigitLength() < c.BigitLength() {
        DisjointSum(a, b, c);
        return -1;
      }
      r := ComparePlusLimbs(a, b, c);
    }

    /** The loop of PlusCompare. */
    static method ComparePlusLimbs(a: Bignum, b: Bignum, c: Bignum) returns (r: int)
      requires a.Valid() && b.Valid() && c.Valid()
      requires b.BigitLength() <= a.BigitLength() <= c.BigitLength()
      ensures r == Sign(a.Value() + b.Value() - c.Value())
    {
      hide BPow, Val, Gap;
      var borrow: uint32 := 0;
      var lowest := Min(Min(a.exponent, b.exponent), c.exponent);
      var i := c.BigitLength() - 1;
      GapStart(a, b, c);
      while i >= lowest
        invariant -1 <= i && (lowest - 1 <= i || i == c.BigitLength() - 1)
        invariant borrow == 0 || borrow == 0x1000_0000
        invariant borrow as int == BASE * Gap(a, b, c, i + 1)
      {
        GapStep(a, b, c, i);
        var chunkA, chunkB, chunkC := a.BigitAt(i), b.BigitAt(i), c.BigitAt(i);
        var sum := chunkA + chunkB;
        if sum > chunkC + borrow {
          return 1;
        }
        borrow := chunkC + borrow - sum;
        if borrow > 1 { return -1; }
        borrow := borrow * 0x1000_0000;
        i := i - 1;
      }
      GapEnd(a, b, c, i + 1);
      if borrow == 0 { return 0; }
      return -1;
    }

    /** How far c exceeds a + b when all three are cut at limb i. */
    static ghost function Gap(a: Bignum, b: Bignum, c: Bignum, i: nat): int
      reads a, a.bigits, b, b.bigits, c, c.bigits
    {
      c.Value() / BPow(i) - a.Value() / BPow(i) - b.Value() / BPow(i)
    }

    static lemma {:induction false} GapStart(a: Bignum, b: Bignum, c: Bignum)
      requires a.Valid() && b.Valid() && c.Valid()
      requires b.BigitLength() <= a.BigitLength() <= c.BigitLength()
      ensures Gap(a, b, c, c.BigitLength()) == 0
    {
      hide BPow, Val;
      a.QuotientEnds(c.BigitLength());
      b.QuotientEnds(c.BigitLength());
      c.QuotientEnds(c.BigitLength());
    }

    static lemma {:induction false} GapStep(a: Bignum, b: Bignum, c: Bignum, i: nat)
      requires a.Valid() && b.Valid() && c.Valid()
      ensures Gap(a, b, c, i)
           == BASE * Gap(a, b, c, i + 1) + c.BigitAt(i) as int - a.BigitAt(i) as int - b.BigitAt(i) as int
      ensures a.BigitAt(i) as int < BASE && b.BigitAt(i) as int < BASE && c.BigitAt(i) as int < BASE
      ensures Gap(a, b, c, i) < 0 ==> a.Value() + b.Value() > c.Value()
      ensures Gap(a, b, c, i) >= 2 ==> a.Value() + b.Value() < c.Value()
    {
      hide BPow, Val;
      a.BigitQuotient(i);
      b.BigitQuotient(i);
      c.BigitQuotient(i);
      QuotientGap(a.Value(), b.Value(), c.Value(), BPow(i));
    }

    /** Below all exponents the gap decides the comparison. */
    static lemma {:induction false} GapEnd(a: Bignum, b: Bignum, c: Bignum, i: nat)
      requires a.Valid() && b.Valid() && c.Valid()
      requires i <= a.exponent && i <= b.exponent && i <= c.exponent
      ensures Gap(a, b, c, i) == 0 ==> a.Value() + b.Value() == c.Value()
      ensures Gap(a, b, c, i) == 1 ==> a.Value() + b.Value() < c.Value()
    {
      hide BPow, Val;
      a.QuotientEnds(i);
      b.QuotientEnds(i);
      c.QuotientEnds(i);
      SumOfMultiples(a.Value() / BPow(i), b.Value() / BPow(i), c.Value() / BPow(i), BPow(i));
    }

    static lemma {:induction false} ShortSum(a: Bignum, b: Bignum, c: Bignum)
      requires a.Valid() && b.Valid() && c.Valid()
      requires b.BigitLength() <= a.BigitLength() && a.BigitLength() + 1 < c.BigitLength()
      ensures a.Value() + b.Value() < c.Value()
    {
      hide BPow, Val;
      a.Range();
      b.Range();
      c.Range();
      BPowMono(b.BigitLength(), a.BigitLength());
      BPowStep(a.BigitLength());
      BPowMono(a.BigitLength() + 1, c.BigitLength() - 1);
    }

    /** If b fits into a's hidden zeros, the sum has the length of a. */
    static lemma {:induction false} DisjointSum(a: Bignum, b: Bignum, c: Bignum)
      requires a.Valid() && b.Valid() && c.Valid()
      requires a.exponent >= b.BigitLength() && a.BigitLength() < c.BigitLength()
      ensures a.Value() + b.Value() < c.Value()
    {
      hide BPow, Val;
      b.Range();
      c.Range();
      BPowMono(b.BigitLength(), a.exponent);
      BelowTop(a.bigits[..], a.used);
      DisjointBound(a.Mantissa(), a.used, b.Value(), a.exponent);
      BPowMono(a.BigitLength(), c.BigitLength() - 1);
    }

    /** The first loop of DivideModuloIntBignum: takes off multiples of `other` while this is longer.
        It is then asserted that both are equally long. That fails exactly if `LengthsMissed` holds on entry. */
    method RemoveTopMultiples(other: Bignum) returns (result: uint16)
      requires Valid() && other.Valid() && Apart(other) && other.used > 0 && exponent <= other.exponent
      requires BigitLength() >= other.BigitLength() && Value() < 0x1_0000 * other.Value()
      requires BigitLength() > other.BigitLength() ==> other.bigits[other.used - 1] as int >= BASE / 16
      modifies this, bigits
      ensures Valid() && used > 0 && exponent <= old(exponent) && BigitLength() <= other.BigitLength()
      ensures old(Value()) == result as int * other.Value() + Value()
      ensures BigitLength() != other.BigitLength() <==> LengthsMissed(old(Value()), other.Value(), other.BigitLength())
      ensures BigitLength() < other.BigitLength() ==> other.used > 1 && other.bigits[other.used - 1] as int == BASE - 1
    {
      hide BPow, Val, Reduced, LengthsMissed;
      ghost var k := other.BigitLength();
      StartReducing(other);
      result := 0;
      while BigitLength() > other.BigitLength()
        invariant Valid() && used > 0 && exponent <= old(exponent) && BigitLength() <= old(BigitLength())
        invariant old(Value()) == result as int * other.Value() + Value()
        invariant BigitLength() < other.BigitLength() ==>
                     other.used > 1 && other.bigits[other.used - 1] as int == BASE - 1
        invariant Reduced(Value(), other.Value(), BPow(k)) == Reduced(old(Value()), other.Value(), BPow(k))
        decreases Value()
      {
        assert other.bigits[other.used - 1] as int >= BASE / 16;
        ghost var value := Value();
        TopMultiple(other);
        TopQuotient(other);
        var top := bigits[used - 1];
        assert top < 0x1_0000;
        QuotientStep(result as int, top as int, other.Value(), value, old(Value()));
        ReduceOnce(value, other.Value(), BPow(k), top as int);
        result := result + top as uint16;
        SubtractTimes(other, top as int);
        if BigitLength() < other.BigitLength() {
          Range();
          NearlyFull(other, value, top as int, Value(), BigitLength());
        }
      }
      EndReducing(other);
    }

    /** What is known of the numbers on entry to the loop. */
    lemma {:induction false} StartReducing(other: Bignum)
      requires Valid() && other.Valid() && other.used > 0 && used > 0
      requires BigitLength() >= other.BigitLength() && Value() < 0x1_0000 * other.Value()
      ensures var k := other.BigitLength();
              && k > 0 && BPow(k) == BASE * BPow(k - 1) && BPow(k - 1) > 0
              && BPow(k - 1) <= Value() && BPow(k - 1) <= other.Value() < BPow(k)
              && (Reduced(Value(), other.Value(), BPow(k)) < BPow(k - 1) <==> LengthsMissed(Value(), other.Value(), k))
    {
      hide BPow, Val, Reduced, LengthsMissed;
      var k := other.BigitLength();
      Range();
      other.Range();
      BPowMono(k - 1, BigitLength() - 1);
      BPowStep(k - 1);
      MissedExactly(Value(), other.Value(), k);
    }

    /** After the loop nothing is left to take off, and the length says whether the value is below that of `other`. */
    lemma {:induction false} EndReducing(other: Bignum)
      requires Valid() && other.Valid() && other.used > 0 && used > 0 && BigitLength() <= other.BigitLength()
      ensures var k := other.BigitLength();
              && BPow(k) > 0 && Reduced(Value(), other.Value(), BPow(k)) == Value()
              && (Value() < BPow(k - 1) <==> BigitLength() < k)
    {
      hide BPow, Val;
      var k := other.BigitLength();
      Range();
      BPowMono(BigitLength(), k);
      if BigitLength() < k { BPowMono(BigitLength(), k - 1); }
    }

    /** The top limb times `other` can be subtracted when this is longer, and something is left. */
    lemma {:induction false} TopMultiple(other: Bignum)
      requires Valid() && other.Valid() && other.used > 0 && used > 0
      requires BigitLength() > other.BigitLength() && Value() < 0x1_0000 * other.Value()
      ensures var top := bigits[used - 1] as int;
              && 0 < top < 0x1_0000
              && top * BPow(other.BigitLength()) <= Value()
              && 0 < top * other.Value() < Value()
    {
      hide BPow, Val;
      Range();
      other.Range();
      BPowMono(other.BigitLength(), BigitLength() - 1);
      TopBounds(bigits[used - 1] as int, BPow(other.BigitLength()), BPow(BigitLength() - 1), Value(), other.Value());
    }

    /** It is the floor quotient by the power of the base above `other`. */
    lemma {:induction false} TopQuotient(other: Bignum)
      requires Valid() && other.Valid() && other.used > 0 && used > 0
      requires BigitLength() > other.BigitLength() && Value() < 0x1_0000 * other.Value()
      ensures BPow(other.BigitLength()) > 0 && bigits[used - 1] as int == Value() / BPow(other.BigitLength())
    {
      hide BPow, Val;
      var k, top, p := other.BigitLength(), bigits[used - 1] as int, BPow(other.BigitLength());
      Range();
      other.Range();
      MulMono(1, top, BPow(BigitLength() - 1));
      if BigitLength() > k + 1 {
        BPowMono(k + 1, BigitLength() - 1);
        BPowStep(k);
      }
      DivModUnique(Value(), p, top, Value() - top * p);
    }

    /** If a subtraction makes this shorter than `other`, then `other` is almost a power of the base. */
    static lemma {:induction false} NearlyFull(other: Bignum, value: nat, top: nat, left: nat, length: nat)
      requires other.Valid() && other.used > 0
      requires left == value - top * other.Value() && top > 0
      requires top * BPow(other.BigitLength()) <= value && left < BPow(length) && length < other.BigitLength()
      ensures other.used > 1 && other.bigits[other.used - 1] as int == BASE - 1
    {
      hide BPow, Val;
      var k, d := other.BigitLength(), BPow(other.BigitLength()) - other.Value();
      other.Range();
      BPowMono(length, k - 1);
      BPowStep(k - 1);
      assert top * d == top * BPow(k) - top * other.Value();
      MulMono(1, top, d);
      var u, limb := BPow(k - 1), other.bigits[other.used - 1] as int;
      assert other.Value() > (BASE - 1) * u;
      if limb < BASE - 1 { MulMono(limb + 1, BASE - 1, u); }
      if other.used == 1 { other.SingleLimb(); }
    }

    lemma {:induction false} SingleLimb()
      requires Valid() && used == 1
      ensures Value() == bigits[0] as int * BPow(exponent)
    {
      ValTrim(bigits[..], 1);
      assert bigits[..][..1][..0] == [];
    }

    /** The shortcut for a divisor of one limb. */
    method DivideBySingleLimb(other: Bignum) returns (quotient: nat)
      requires Valid() && other.Valid() && Apart(other) && other.used == 1 && used > 0
      requires exponent <= other.exponent && BigitLength() == other.BigitLength()
      modifies this, bigits
      ensures Valid() && quotient < BASE && BigitLength() <= old(BigitLength()) && exponent <= old(exponent)
      ensures old(Value()) == quotient * other.Value() + Value() && Value() < other.Value()
    {
      hide BPow, Val;
      var thisBigit, otherBigit := bigits[used - 1], other.bigits[other.used - 1];
      quotient := (thisBigit / otherBigit) as nat;
      ghost var cur, m := bigits[..], Mantissa();
      var rest := thisBigit - otherBigit * (quotient as uint32);
      other.SingleLimb();
      Range();
      ValUpdate(cur, used - 1, rest);
      ShortcutValue(thisBigit as int, otherBigit as int, m, BPow(used - 1), BPow(exponent), BPow(other.exponent)) by {
        BPowAdd(used - 1, exponent);
      }
      bigits[used - 1] := rest;
      assert bigits[..] == cur[used - 1 := rest];
      Clamp();
    }

    /** The estimate from the top limbs, and whether not even zeros below could allow one more. */
    method EstimateQuotient(other: Bignum) returns (estimate: nat, exact: bool)
      requires Valid() && other.Valid() && other.used > 1 && used > 0
      requires BigitLength() <= other.BigitLength()
      requires BigitLength() < other.BigitLength() ==> other.bigits[other.used - 1] as int == BASE - 1
      ensures estimate < BASE && estimate * other.Value() <= Value()
      ensures exact ==> Value() - estimate * other.Value() < other.Value()
    {
      Estimate(other);
      var thisBigit, otherBigit := bigits[used - 1], other.bigits[other.used - 1];
      var e := thisBigit / (otherBigit + 1);
      return e as nat, otherBigit * (e + 1) > thisBigit;
    }

    /** The division proper, once no multiple of `other` is left above its length. */
    method DivideByEstimate(other: Bignum) returns (result: nat)
      requires Valid() && other.Valid() && Apart(other) && other.used > 1 && used > 0
      requires exponent <= other.exponent && BigitLength() <= other.BigitLength()
      requires BigitLength() < other.BigitLength() ==> other.bigits[other.used - 1] as int == BASE - 1
      modifies this, bigits
      ensures Valid() && BigitLength() <= old(BigitLength()) && exponent <= old(exponent)
      ensures old(Value()) == result * other.Value() + Value() && Value() < other.Value()
    {
      hide BPow, Val;
      var exact;
      result, exact := EstimateQuotient(other);
      SubtractTimes(other, result);
      if exact { return; }
      var more := SubtractWhilePossible(other);
      TimesSum(result, more, other.Value());
      result := result + more;
    }

    /** The closing loop of the division. */
    method SubtractWhilePossible(other: Bignum) returns (count: nat)
      requires Valid() && other.Valid() && Apart(other) && other.used > 0 && exponent <= other.exponent
      modifies this, bigits
      ensures Valid() && BigitLength() <= old(BigitLength()) && exponent <= old(exponent)
      ensures old(Value()) == count * other.Value() + Value() && Value() < other.Value()
    {
      hide BPow, Val;
      count := 0;
      var order := Compare(other, this);
      while order <= 0
        invariant Valid() && BigitLength() <= old(BigitLength()) && exponent <= old(exponent)
        invariant old(Value()) == count * other.Value() + Value()
        invariant order == Sign(other.Value() - Value())
        decreases Value()
      {
        other.Range();
        TimesSuccessor(count, other.Value());
        SubtractBignum(other);
        count := count + 1;
        order := Compare(other, this);
      }
    }

    /** The estimate never exceeds the quotient, and the early exit is taken only when it is exact. */
    lemma {:induction false} Estimate(other: Bignum)
      requires Valid() && other.Valid() && other.used > 0 && used > 0
      requires BigitLength() <= other.BigitLength()
      requires BigitLength() < other.BigitLength() ==> other.bigits[other.used - 1] as int == BASE - 1
      ensures var limb, top := bigits[used - 1] as int, other.bigits[other.used - 1] as int;
              var e := limb / (top + 1);
              && e < BASE && e * other.Value() <= Value() && top * (e + 1) <= 2 * BASE
              && (top * (e + 1) > limb ==> Value() - e * other.Value() < other.Value())
    {
      hide BPow, Val;
      Range();
      other.Range();
      var limb, top := bigits[used - 1] as int, other.bigits[other.used - 1] as int;
      if BigitLength() < other.BigitLength() {
        BPowMono(BigitLength(), other.BigitLength() - 1);
        assert limb / BASE == 0;
      } else {
        EstimateBounds(limb, top, BPow(BigitLength() - 1), Value(), other.Value());
      }
    }

    method DivideModuloIntBignum(other: Bignum) returns (result: uint16)
      requires Valid() && other.Valid() && Apart(other) && other.used > 0
      requires Value() < 0x1_0000 * other.Value()
      requires BigitLength() > other.BigitLength() ==> other.bigits[other.used - 1] as int >= BASE / 16
      requires exponent > other.exponent ==> BigitLength() - other.exponent <= CAPACITY
      modifies this, bigits
      ensures Valid() && BigitLength() <= old(BigitLength()) && exponent <= old(exponent)
      ensures result as int == old(Value()) / other.Value() && Value() == old(Value()) % other.Value()
    {
      hide BPow, Val;
      ghost var value := Value();
      if BigitLength() < other.BigitLength() {
        if other.Value() <= Value() { other.LengthOrder(this); }
        DivModUnique(value, other.Value(), 0, value);
        return 0;
      }
      Align(other);
      result := RemoveTopMultiples(other);
      var rest;
      if other.used == 1 {
        rest := DivideBySingleLimb(other);
      } else {
        rest := DivideByEstimate(other);
      }
      DivisionTotal(value, other.Value(), result as int, rest, Value());
      result := result + rest as uint16;
    }

    /** Copies the limbs above themselves so that the product can overwrite them. */
    method CopyForSquare()
      requires Shape() && 2 * used <= CAPACITY
      modifies bigits
      ensures forall j :: used <= j < 2 * used ==> bigits[j] == old(bigits[j - used])
      ensures forall j :: 2 * used <= j < CAPACITY ==> bigits[j] == 0
    {
      for i := 0 to used
        invariant forall j :: 0 <= j < used ==> bigits[j] == old(bigits[j])
        invariant forall j :: used <= j < used + i ==> bigits[j] == old(bigits[j - used])
        invariant forall j :: 2 * used <= j < CAPACITY ==> bigits[j] == 0
      {
        bigits[used + i] := bigits[i];
      }
    }

    /** Adds column k < used of the square; reads only the copy. */
    method SumLowColumn(k: nat, accumulator: uint64, ghost s: seq<uint32>) returns (total: uint64)
      requires bigits.Length == CAPACITY && |s| == used && 2 * used <= CAPACITY && Small(s) && k < used
      requires forall j :: used <= j < 2 * used ==> bigits[j] == s[j - used]
      requires accumulator as int <= used * BASE
      ensures total as int == accumulator as int + Column(s, s, k, |s|)
      ensures total as int <= used * (BASE * BASE)
    {
      total := accumulator;
      var index1, index2 := k, 0;
      while index1 >= 0
        invariant 0 <= index2 <= k + 1 && index1 == k - index2
        invariant total as int == accumulator as int + Column(s, s, k, index2)
        invariant total as int <= used * BASE + index2 * 0xFF_FFFF_E000_0001
      {
        LimbProduct(s[index1] as int, s[index2] as int);
        var chunk1, chunk2 := bigits[used + index1], bigits[used + index2];
        total := total + chunk1 as uint64 * chunk2 as uint64;
        index1 := index1 - 1;
        index2 := index2 + 1;
      }
      ColumnSuffixZero(s, s, k, |s|);
    }

    /** Adds column k >= used; the part of the copy it reads has not been overwritten yet. */
    method SumHighColumn(k: nat, accumulator: uint64, ghost s: seq<uint32>) returns (total: uint64)
      requires bigits.Length == CAPACITY && |s| == used && 2 * used <= CAPACITY && Small(s) && used <= k < 2 * used
      requires forall j :: k < j < 2 * used ==> bigits[j] == s[j - used]
      requires accumulator as int <= used * BASE
      ensures total as int == accumulator as int + Column(s, s, k, |s|)
      ensures total as int <= used * (BASE * BASE)
    {
      total := accumulator;
      var index1 := used - 1;
      var index2 := k - index1;
      ColumnPrefixZero(s, s, k, index2);
      while index2 < used
        invariant 1 <= index2 <= used && index1 == k - index2
        invariant total as int == accumulator as int + Column(s, s, k, index2)
        invariant total as int <= used * BASE + (index2 - 1) * 0xFF_FFFF_E000_0001
      {
        LimbProduct(s[index1] as int, s[index2] as int);
        var chunk1, chunk2 := bigits[used + index1], bigits[used + index2];
        total := total + chunk1 as uint64 * chunk2 as uint64;
        index1 := index1 - 1;
        index2 := index2 + 1;
      }
    }

    /** Squares in place; the column accumulator fits in 64 bits and ends at zero. */
    method Square()
      requires Valid() && 2 * used <= CAPACITY
      modifies this, bigits
      ensures Valid() && Value() == old(Value()) * old(Value())
      ensures exponent <= 2 * old(exponent)
    {
      hide BPow, Val, Column, ColumnSum;
      ghost var s := bigits[..used];
      ValTrim(bigits[..], used);
      CopyForSquare();
      var accumulator := SquareColumns(s);
      SquareTotal(s, bigits[..2 * used], accumulator as int);
      assert accumulator == 0;
      used := 2 * used;
      ValTrim(bigits[..], used);
      SquareValue(Val(s), exponent);
      exponent := exponent * 2;
      Clamp();
    }

    /** Both column loops of Square. */
    method SquareColumns(ghost s: seq<uint32>) returns (accumulator: uint64)
      requires bigits.Length == CAPACITY && |s| == used && 2 * used <= CAPACITY && Small(s)
      requires forall j :: used <= j < 2 * used ==> bigits[j] == s[j - used]
      requires forall j :: 2 * used <= j < CAPACITY ==> bigits[j] == 0
      modifies bigits
      ensures Small(bigits[..]) && Zeros(bigits[..], 2 * used)
      ensures Val(bigits[..2 * used]) + accumulator as int * BPow(2 * used) == ColumnSum(s, s, 2 * used)
    {
      hide BPow, Val, Column, ColumnSum;
      accumulator := LowColumns(s);
      for i := used to 2 * used
        invariant accumulator as int <= used * BASE
        invariant forall j :: 0 <= j < i ==> bigits[j] as int < BASE
        invariant forall j :: i <= j < 2 * used ==> bigits[j] == s[j - used]
        invariant forall j :: 2 * used <= j < CAPACITY ==> bigits[j] == 0
        invariant Val(bigits[..i]) + accumulator as int * BPow(i) == ColumnSum(s, s, i)
      {
        var total := SumHighColumn(i, accumulator, s);
        ghost var prefix := bigits[..i];
        bigits[i] := (total % 0x1000_0000) as uint32;
        assert bigits[..i + 1] == prefix + [bigits[i]];
        ColumnStep(s, prefix, i, accumulator as int, total as int, bigits[i]);
        accumulator := total / 0x1000_0000;
      }
    }

    /** The first of them; it overwrites the original limbs but not the copy. */
    method LowColumns(ghost s: seq<uint32>) returns (accumulator: uint64)
      requires bigits.Length == CAPACITY && |s| == used && 2 * used <= CAPACITY && Small(s)
      requires forall j :: used <= j < 2 * used ==> bigits[j] == s[j - used]
      requires forall j :: 2 * used <= j < CAPACITY ==> bigits[j] == 0
      modifies bigits
      ensures accumulator as int <= used * BASE
      ensures forall j :: 0 <= j < used ==> bigits[j] as int < BASE
      ensures forall j :: used <= j < 2 * used ==> bigits[j] == s[j - used]
      ensures forall j :: 2 * used <= j < CAPACITY ==> bigits[j] == 0
      ensures Val(bigits[..used]) + accumulator as int * BPow(used) == ColumnSum(s, s, used)
    {
      hide BPow, Val, Column, ColumnSum;
      accumulator := 0;
      ColumnsStart(s, bigits[..0]);
      for i := 0 to used
        invariant accumulator as int <= used * BASE
        invariant forall j :: 0 <= j < i ==> bigits[j] as int < BASE
        invariant forall j :: used <= j < 2 * used ==> bigits[j] == s[j - used]
        invariant forall j :: 2 * used <= j < CAPACITY ==> bigits[j] == 0
        invariant Val(bigits[..i]) + accumulator as int * BPow(i) == ColumnSum(s, s, i)
      {
        var total := SumLowColumn(i, accumulator, s);
        ghost var prefix := bigits[..i];
        bigits[i] := (total % 0x1000_0000) as uint32;
        assert bigits[..i + 1] == prefix + [bigits[i]];
        ColumnStep(s, prefix, i, accumulator as int, total as int, bigits[i]);
        accumulator := total / 0x1000_0000;
      }
    }

    /** Multiplies by 5^exponent in chunks of 27, 13 and a table entry, then shifts for the 2^exponent. */
    method MultiplyByPowerOfTen(power: nat, ghost limbs: nat)
      requires Valid() && limbs < bigits.Length && Pow(5, power) * Mantissa() < BPow(limbs)
      modifies this, bigits
      ensures Valid() && Value() == old(Value()) * Pow(10, power) && used <= limbs + 1
    {
      hide BPow, Val, Pow;
      if power == 0 {
        PowBasics(10);
        PowBasics(5);
        MantissaFits(limbs);
        return;
      }
      if used == 0 {
        Range();
        return;
      }
      BPowMono(limbs, bigits.Length - 1);
      MultiplyByPowerOfFive(power);
      MantissaFits(limbs);
      PowerOfTenValue(old(Mantissa()), exponent, power);
      ShiftLeft(power);
    }

    method MultiplyByPowerOfFive(power: nat)
      requires Valid() && used > 0 && Pow(5, power) * Mantissa() < BPow(bigits.Length - 1)
      modifies this, bigits
      ensures Valid() && exponent == old(exponent)
      ensures Mantissa() == Pow(5, power) * old(Mantissa())
    {
      hide BPow, Val, Pow;
      BPowStep(bigits.Length - 1);
      FivePowers();
      PowBasics(5);
      var remaining := power;
      while remaining >= 27
        invariant 0 <= remaining <= power && Valid() && exponent == old(exponent)
        invariant Mantissa() == Pow(5, power - remaining) * old(Mantissa())
      {
        FiveStep(power, remaining, 27, old(Mantissa()));
        MultiplyByUInt64(0x6765_c793_fa10_079d);
        remaining := remaining - 27;
      }
      while remaining >= 13
        invariant 0 <= remaining <= power && Valid() && exponent == old(exponent)
        invariant Mantissa() == Pow(5, power - remaining) * old(Mantissa())
      {
        FiveStep(power, remaining, 13, old(Mantissa()));
        MultiplyByUInt32(1220703125);
        remaining := remaining - 13;
      }
      if remaining > 0 {
        FiveStep(power, remaining, remaining, old(Mantissa()));
        FiveTable(remaining);
        var factor := FIVE1_TO_12[remaining - 1];
        assert factor as int == Pow(5, remaining);
        MultiplyByUInt32(factor);
        remaining := 0;
      }
      assert power - remaining == power;
    }

    lemma {:induction false} MantissaFits(k: nat)
      requires Valid() && Mantissa() < BPow(k)
      ensures used <= k
    {
      hide BPow, Val;
      if used > k {
        ValRange(bigits[..], used);
        BPowMono(k, used - 1);
      }
    }

    method AddUInt64(operand: uint64)
      requires Valid() && BigitLength() < CAPACITY
      modifies this, bigits
      ensures Valid() && Value() == old(Value()) + operand as int
    {
      hide BPow, Val;
      if operand == 0 { return; }
      var other := new Bignum();
      other.AssignUInt64(operand);
      AddBignum(other);
    }

    /** Reads a decimal string in chunks of 19 digits, the longest that always fit in 64 bits. */
    method AssignDecimalString(value: seq<char>)
      requires Valid() && AllDigits(value)
      requires Pow(10, |value|) <= BPow(bigits.Length - 2)
      modifies this, bigits
      ensures Valid() && Value() == DecimalValue(value)
    {
      hide BPow, Val, Pow, DecimalValue;
      Zero();
      var length, pos := |value|, 0;
      DecimalEmpty(value[..0]);
      while length >= 19
        invariant 0 <= pos <= |value| && pos + length == |value|
        invariant Valid() && Value() == DecimalValue(value[..pos])
      {
        AppendDecimalChunk(value, pos, 19);
        pos := pos + 19;
        length := length - 19;
      }
      AppendDecimalChunk(value, pos, length);
      assert value[..pos + length] == value;
      Clamp();
    }

    method AppendDecimalChunk(value: seq<char>, pos: nat, count: nat)
      requires Valid() && AllDigits(value) && pos + count <= |value| && count <= 19
      requires Pow(10, |value|) <= BPow(bigits.Length - 2)
      requires Value() == DecimalValue(value[..pos])
      modifies this, bigits
      ensures Valid() && Value() == DecimalValue(value[..pos + count])
    {
      hide BPow, Val, Pow, DecimalValue;
      var digits := ReadUInt64(value, pos, count);
      ChunkFits(value, pos, count, bigits.Length - 2);
      BPowStep(bigits.Length - 2);
      MantissaBelowValue();
      ScaledMantissa(Mantissa(), Value(), count, BPow(bigits.Length - 2));
      MultiplyByPowerOfTen(count, bigits.Length - 1);
      LengthBound(bigits.Length - 2);
      AddUInt64(digits);
    }

    lemma {:induction false} MantissaBelowValue()
      requires Valid()
      ensures Mantissa() <= Value()
    {
      MulMono(1, BPow(exponent), Mantissa());
    }

    /** base^power by left-to-right exponentiation: first in 64 bits, then on the bignum, then the twos as a shift. */
    method AssignPowerUInt16(base: uint16, power: nat)
      requires Valid() && base != 0
      requires BitLength(OddPart(base as nat)) * power / 28 + 2 <= CAPACITY
      modifies this, bigits
      ensures Valid() && Value() == Pow(base as int, power)
    {
      hide BPow, Val, Pow, OddPart, BitLength;
      if power == 0 {
        PowBasics(base as int);
        AssignUInt16(1);
        return;
      }
      Zero();
      var odd, shifts, bitSize := SplitBase(base);
      ghost var limbs := BitLength(odd as nat) * power / 28 + 1;
      PowerFits(odd as nat, power, limbs);
      ghost var k := TopBit(power);
      TopBitBounds(power);
      var mask := StartMask(power);
      var value, delayed;
      ghost var rest;
      value, delayed, mask, rest := PowerInWord(odd, bitSize, power, mask, k);
      TakeWord(odd, power, value, delayed, rest, limbs);
      PowerOnBignum(odd, power, mask, rest, limbs);
      ExponentZero();
      MantissaFits(limbs);
      TwosValue(base as int, odd as int, shifts, power);
      ShiftLeft(shifts * power);
    }

    /** Takes over the word, and the multiplication that did not fit in it. */
    method TakeWord(base: uint16, power: nat, value: uint64, delayed: bool, ghost k: nat, ghost limbs: nat)
      requires Valid() && base > 0 && limbs < CAPACITY && Pow(base as int, power) < BPow(limbs)
      requires value as int * (if delayed then base as int else 1) == Pow(base as int, Prefix(power, k))
      modifies this, bigits
      ensures Valid() && exponent == 0 && Value() == Pow(base as int, Prefix(power, k))
    {
      hide BPow, Val, Pow, Prefix;
      AssignUInt64(value);
      PrefixFits(base as nat, power, k, limbs);
      BPowMono(limbs, bigits.Length);
      ExponentZero();
      if delayed { MultiplyByUInt32(base as uint32); }
      ExponentZero();
    }

    lemma {:induction false} ExponentZero()
      ensures exponent == 0 ==> Value() == Mantissa()
    {
    }

    method PowerRound(base: uint16, power: nat, mask: nat, ghost k: nat, ghost limbs: nat)
      requires Valid() && exponent == 0 && base > 0 && k > 0 && mask == MaskOf(k) > 0
      requires Value() == Pow(base as int, Prefix(power, k))
      requires limbs < CAPACITY && Pow(base as int, power) < BPow(limbs)
      modifies this, bigits
      ensures Valid() && exponent == 0 && Value() == Pow(base as int, Prefix(power, k - 1))
    {
      hide BPow, Val, Pow, Prefix, MaskOf;
      RoundParts(base as int, power, k, Value());
      PrefixFits(base as int, power, k - 1, limbs);
      SquareRoom(base as int, power, k, limbs);
      Square();
      ExponentZero();
      if power / mask % 2 != 0 {
        BPowMono(limbs, bigits.Length);
        MultiplyByUInt32(base as uint32);
        ExponentZero();
      }
    }

    /** The bignum rounds: square, and multiply where the exponent has a one. */
    method PowerOnBignum(base: uint16, power: nat, maskIn: nat, ghost k: nat, ghost limbs: nat)
      requires Valid() && exponent == 0 && base > 0
      requires maskIn == MaskOf(k) && Value() == Pow(base as int, Prefix(power, k))
      requires limbs < CAPACITY && Pow(base as int, power) < BPow(limbs)
      modifies this, bigits
      ensures Valid() && exponent == 0 && Value() == Pow(base as int, power)
    {
      hide BPow, Val, Pow, Prefix, MaskOf;
      var mask := maskIn;
      ghost var left := k;
      while mask != 0
        invariant Valid() && exponent == 0
        invariant mask == MaskOf(left) && Value() == Pow(base as int, Prefix(power, left))
        decreases left
      {
        MaskStep(left);
        PowerRound(base, power, mask, left, limbs);
        mask := mask / 2;
        left := left - 1;
      }
      MaskStep(left);
      PrefixEnd(power);
    }

    /** Enough room for the square of a prefix power. */
    lemma {:induction false} SquareRoom(base: nat, power: nat, k: nat, limbs: nat)
      requires Valid() && exponent == 0 && limbs < CAPACITY && base > 0 && k > 0
      requires Value() == Pow(base, Prefix(power, k)) && Value() * Value() < BPow(limbs)
      ensures 2 * used <= CAPACITY
    {
      hide BPow, Val, Pow;
      if used > 0 {
        Range();
        MulMono(BPow(used - 1), Value(), BPow(used - 1));
        MulMono(BPow(used - 1), Value(), Value());
        BPowAdd(used - 1, used - 1);
        if 2 * (used - 1) >= limbs { BPowMono(limbs, 2 * (used - 1)); }
      }
    }
  }

  /** A quotient below sixteen is all that division needs: it implies what is asserted about the leading limbs. */
  lemma {:induction false} SmallQuotientSuffices(a: Bignum, other: Bignum)
    requires a.Valid() && other.Valid() && other.used > 0 && a.Value() < 16 * other.Value()
    ensures a.Value() < 0x1_0000 * other.Value()
    ensures a.BigitLength() > other.BigitLength() ==>
               other.bigits[other.used - 1] as int >= BASE / 16 && a.bigits[a.used - 1] < 16
  {
    hide BPow, Val;
    if a.BigitLength() > other.BigitLength() {
      a.Range();
      other.Range();
      BPowMono(other.BigitLength(), a.BigitLength() - 1);
      BPowStep(other.BigitLength() - 1);
      LeadingLimb(other.bigits[other.used - 1] as int, BPow(other.BigitLength() - 1), other.Value(),
                  BPow(a.BigitLength() - 1), a.Value());
      TopLimb(a.bigits[a.used - 1] as int, BPow(a.BigitLength() - 1), a.Value(), BPow(other.BigitLength()),
              other.Value());
    }
  }

  lemma {:induction false} LeadingLimb(limb: int, unit: int, b: int, longer: int, a: int)
    requires unit > 0 && b < (limb + 1) * unit && BASE * unit <= longer <= a < 16 * b
    ensures limb >= BASE / 16
  {
    if limb < BASE / 16 { MulMono(limb + 1, BASE / 16, unit); }
  }

  lemma {:induction false} TopLimb(limb: int, unit: int, a: int, longer: int, b: int)
    requires unit > 0 && limb * unit <= a < 16 * b && b < longer <= unit
    ensures limb < 16
  {
    if limb >= 16 { MulMono(16, limb, unit); }
  }

  /** What the first loop of the division leaves of v: multiples of o are taken off while v has more limbs than o. */
  ghost function Reduced(v: nat, o: nat, p: nat): nat
    decreases v
  {
    if p == 0 || v < p || v / p * o > v || v / p * o == 0 then v else Reduced(v - v / p * o, o, p)
  }

  /** The exact condition under which that loop overshoots and leaves fewer limbs than the divisor o has, which is k. */
  ghost predicate LengthsMissed(v: nat, o: nat, k: nat)
    requires k > 0
  {
    var w := v - v / BPow(k) * o;
    v >= BPow(k) && (w < BPow(k - 1) || (w >= BPow(k) && w - o < BPow(k - 1)))
  }

  lemma {:induction false} ReduceOnce(v: nat, o: nat, p: nat, top: nat)
    requires p > 0 && top == v / p && 0 < top * o < v && top > 0
    ensures Reduced(v, o, p) == Reduced(v - top * o, o, p)
  {
    if v < p { DivModUnique(v, p, 0, v); }
  }

  lemma {:induction false} NothingToReduce(v: nat, o: nat, p: nat)
    ensures v < p ==> Reduced(v, o, p) == v
  {
  }

  /** A loop that leaves less than u has made a step that did, so the divisor is less than u below p. */
  lemma {:induction false} Overshoot(v: nat, o: nat, p: nat, u: nat)
    requires 0 < u <= v && 0 < o < p && Reduced(v, o, p) < u
    ensures p - o < u
    decreases v
  {
    hide Reduced;
    NothingToReduce(v, o, p);
    var top := v / p;
    Quotient(v, o, p);
    var w := v - top * o;
    ReduceOnce(v, o, p, top);
    if w < u {
      FloorBounds(v, p);
      NarrowStep(v, top, o, p);
    } else {
      Overshoot(w, o, p, u);
    }
  }

  lemma {:induction false} NarrowStep(v: nat, top: nat, o: nat, p: nat)
    requires top > 0 && o < p && top * p <= v
    ensures p - o <= v - top * o
  {
    assert top * (p - o) == top * p - top * o;
    MulMono(1, top, p - o);
  }

  /** The floor quotient by more than o, times o. */
  lemma {:induction false} Quotient(v: nat, o: nat, p: nat)
    requires o < p
    ensures v / p * o <= v && (v >= p && o > 0 ==> 0 < v / p * o < v)
  {
    FloorBounds(v, p);
    var top := v / p;
    MulMono(o, p, top);
    if v >= p && o > 0 {
      if top < 1 { MulMono(top, 0, p); }
      MulStrict(o, p, top);
      MulMono(1, top, o);
    }
  }

  /** Between p and 2p there is one multiple of o to take off. */
  lemma {:induction false} ReduceLast(w: nat, o: nat, p: nat)
    requires 0 < o < p <= w < 2 * p && w - o < p
    ensures Reduced(w, o, p) == w - o
  {
    hide Reduced;
    DivModUnique(w, p, 1, w - p);
    ReduceOnce(w, o, p, 1);
    assert w - 1 * o == w - o;
    NothingToReduce(w - o, o, p);
  }

  /** At most two rounds are needed when the loop overshoots, so the condition only looks that far. */
  lemma {:induction false} MissedExactly(v: nat, o: nat, k: nat)
    requires k > 0 && BPow(k - 1) <= v < 0x1_0000 * o && BPow(k - 1) <= o < BPow(k)
    ensures Reduced(v, o, BPow(k)) < BPow(k - 1) <==> LengthsMissed(v, o, k)
  {
    hide BPow;
    var p, u := BPow(k), BPow(k - 1);
    BPowStep(k - 1);
    if v >= p {
      FloorBounds(v, p);
      Quotient(v, o, p);
      var top := v / p;
      if top >= 0x1_0000 { MulMono(0x1_0000, top, p); }
      var w := v - top * o;
      ReduceOnce(v, o, p, top);
      SecondRound(w, o, p, u, top, v);
    }
  }

  /** What the second round does. */
  lemma {:induction false} SecondRound(w: nat, o: nat, p: nat, u: nat, top: nat, v: nat)
    requires 0 < u <= o < p == BASE * u && top < 0x1_0000 && w == v - top * o && top * p <= v < top * p + p
    ensures Reduced(w, o, p) < u <==> w < u || (w >= p && w - o < u)
  {
    NothingToReduce(w, o, p);
    if w >= p {
      hide Reduced;
      Quotient(w, o, p);
      if w - o < u {
        ReduceLast(w, o, p);
      } else if Reduced(w, o, p) < u {
        Overshoot(w, o, p, u);
        assert top * (p - o) == top * p - top * o;
        MulMono(top, 0x1_0000, p - o);
        ReduceLast(w, o, p);
      }
    }
  }

  lemma {:induction false} LongerThan(a: Bignum, k: nat)
    requires a.Valid() && a.Value() >= BPow(k)
    ensures a.BigitLength() > k
  {
    hide BPow, Val;
    a.Range();
    if a.BigitLength() <= k { BPowMono(a.BigitLength(), k); }
  }

  lemma {:induction false} SmallBPows()
    ensures BPow(0) == 1 && BPow(1) == 0x1000_0000 && BPow(2) == 0x100_0000_0000_0000
  {
    BPowStep(0);
    BPowStep(1);
  }

  lemma {:induction false} OnceOnly(removed: nat, r: nat)
    requires 0x100_0000_0000_0000 == removed * 0xFF_FFFF_FFFF_FFFF + r && r < 0x1000_0000
    ensures removed == 1 && r == 1
  {
  }

  lemma {:induction false} OneLeft()
    ensures LengthsMissed(BPow(2), BPow(2) - 1, 2)
  {
    hide BPow;
    SmallBPows();
    assert BPow(2) / BPow(2) * (BPow(2) - 1) == BPow(2) - 1;
  }

  /** That happens: dividing B^2 by B^2 - 1, a quotient of one, leaves one limb where the divisor has two. */
  method EqualLengthsMissed() returns (rest: Bignum, other: Bignum, removed: uint16)
    ensures rest.Valid() && other.Valid() && removed == 1
    ensures other.Value() == BPow(2) - 1 && rest.Value() == 1
    ensures rest.BigitLength() == 1 && other.BigitLength() == 2
  {
    hide BPow, Val, LengthsMissed;
    rest := new Bignum();
    other := new Bignum();
    rest.AssignUInt64(0x100_0000_0000_0000);
    other.AssignUInt64(0xFF_FFFF_FFFF_FFFF);
    SmallBPows();
    LongerThan(rest, 2);
    LongerThan(other, 1);
    other.LengthBound(2);
    SmallQuotientSuffices(rest, other);
    OneLeft();
    removed := rest.RemoveTopMultiples(other);
    rest.Range();
    BPowMono(rest.BigitLength(), 1);
    OnceOnly(removed as int, rest.Value());
    LongerThan(rest, 0);
  }
}
