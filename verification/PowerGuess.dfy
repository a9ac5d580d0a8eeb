/** The largest power of ten not above a 32-bit number, guessed from its size in bits. */
module PowerGuess {
  import opened Arith

  const SMALL_POWERS_OF_TEN: seq<uint32> := [0, 1, 10, 100, 1000, 10000, 100000, 1000000, 10000000, 100000000,
                                             1000000000]

  /** The guess for a number of at most numberBits + 1 bits; 1233/4096 is about log10(2). */
  function Guess(numberBits: nat): nat {
    (numberBits + 1) * 1233 / 4096 + 1
  }

  function SmallPower(i: nat): int {
    if i == 0 then 0 else Pow(10, i - 1)
  }

  lemma {:induction false} SmallPowers(i: nat)
    requires i <= 10
    ensures SMALL_POWERS_OF_TEN[i] as int == SmallPower(i)
  {
    TensUpTo(if i > 0 then i - 1 else 0);
  }

  lemma {:induction false} TensUpTo(k: nat)
    requires k <= 9
    ensures SMALL_POWERS_OF_TEN[k + 1] as int == Pow(10, k)
    decreases k
  {
    if k > 0 { TensUpTo(k - 1); }
  }

  const TWOS: seq<int> := [1, 2, 4, 8, 16, 32, 64, 128, 256, 512, 1024, 2048, 4096, 8192, 16384, 32768, 65536, 131072,
                           262144, 524288, 1048576, 2097152, 4194304, 8388608, 16777216, 33554432, 67108864, 134217728,
                           268435456, 536870912, 1073741824, 2147483648, 4294967296, 8589934592, 17179869184]

  lemma {:induction false} TwosUpTo(k: nat)
    requires k <= 34
    ensures TWOS[k] == Pow(2, k)
    decreases k
  {
    if k > 0 { TwosUpTo(k - 1); }
  }

  lemma {:induction false} GuessAbove(numberBits: nat)
    requires numberBits <= 32
    ensures 1 <= Guess(numberBits) <= 10 && Pow(2, numberBits + 1) <= 10 * SmallPower(Guess(numberBits))
  {
    hide Pow, SmallPower;
    TwosUpTo(numberBits + 1);
    SmallPowers(Guess(numberBits));
  }

  lemma {:induction false} GuessBelow(numberBits: nat)
    requires 2 <= numberBits <= 32
    ensures SmallPower(Guess(numberBits) - 1) <= Pow(2, numberBits - 2)
  {
    hide Pow, SmallPower;
    TwosUpTo(numberBits - 2);
    SmallPowers(Guess(numberBits) - 1);
  }

  /** A number of so many bits has at most the guessed number of digits, and at least two bits fewer would not need one
      digit less. */
  lemma {:induction false} GuessBounds(numberBits: nat)
    requires numberBits <= 32
    ensures 1 <= Guess(numberBits) <= 10
    ensures Pow(2, numberBits + 1) <= 10 * SmallPower(Guess(numberBits))
    ensures numberBits >= 2 ==> SmallPower(Guess(numberBits) - 1) <= Pow(2, numberBits - 2)
  {
    hide Pow, SmallPower;
    GuessAbove(numberBits);
    if numberBits >= 2 { GuessBelow(numberBits); }
  }

  /** What the search returns: the number of digits, as far as one correction of the guess can tell. */
  function Digits(number: nat, numberBits: nat): nat {
    if number < SmallPower(Guess(numberBits)) then Guess(numberBits) - 1 else Guess(numberBits)
  }

  method BiggestPowerTen(number: uint32, numberBits: nat) returns (power: uint32, exponentPlusOne: nat)
    requires numberBits <= 32 && number as int < Pow(2, numberBits + 1)
    ensures exponentPlusOne == Digits(number as int, numberBits) <= 10 && power as int == SmallPower(exponentPlusOne)
    ensures number > 0 ==> power > 0
    ensures number as int < 10 * power as int || number == 0
  {
    hide Pow;
    GuessBounds(numberBits);
    var guess := (numberBits + 1) * 1233 / 4096;
    guess := guess + 1;
    SmallPowers(guess);
    SmallPowers(guess - 1);
    SmallPowers(1);
    if number < SMALL_POWERS_OF_TEN[guess] {
      guess := guess - 1;
    }
    if guess > 0 { NextPower(guess); }
    power := SMALL_POWERS_OF_TEN[guess];
    exponentPlusOne := guess;
  }

  lemma {:induction false} NextPower(i: nat)
    requires 0 < i
    ensures SmallPower(i + 1) == 10 * SmallPower(i)
  {
  }

  /** The documented contract, power <= number < 10 * power, is met exactly for positive numbers not too far below
      2^numberBits. */
  lemma {:induction false} ContractMet(number: nat, numberBits: nat)
    requires numberBits <= 32 && number < Pow(2, numberBits + 1)
    ensures var power := SmallPower(Digits(number, numberBits));
            (power <= number < 10 * power) <==> number > 0 && number >= SmallPower(Guess(numberBits) - 1)
  {
    hide Pow;
    GuessBounds(numberBits);
    SmallPowers(1);
    if Guess(numberBits) > 1 { NextPower(Guess(numberBits) - 1); }
  }

  /** It is met if the stated size is at most one bit too long for the number. */
  lemma {:induction false} ContractMetByLength(number: nat, numberBits: nat)
    requires 2 <= numberBits <= 32 && Pow(2, numberBits - 2) <= number < Pow(2, numberBits + 1)
    ensures var power := SmallPower(Digits(number, numberBits)); power <= number < 10 * power
  {
    hide Pow;
    GuessBounds(numberBits);
    ContractMet(number, numberBits);
  }

  /** It is not met by 50 when the size is given as 10 bits: the result is 100. The documented precondition, that the
      number is below 2^(numberBits + 1), holds of these arguments; the size is four bits too long for 50. */
  lemma {:induction false} ContractMissed()
    ensures 50 < Pow(2, 10 + 1) && SmallPower(Digits(50, 10)) == 100
  {
    hide Pow;
    TwosUpTo(11);
    SmallPowers(4);
    SmallPowers(3);
  }
}
