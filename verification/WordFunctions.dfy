/** The functions of section 4.1.2 of FIPS 180-4 said digit by digit, with every distance a number: what the circuits of
    SHA-256 do to the binary digits of a word, whatever arithmetic computes them. */
module WordFunctions {
  import opened Words
  import F = Fips180

  // ----- digits of quotients, remainders and sums

  /** The digit of weight 2^i is the parity of the quotient. */
  lemma {:induction false} BitIsParity(x: nat, i: nat)
    ensures Bit(x, i) <==> (x / Pow2(i)) % 2 == 1
  {
    if i > 0 {
      BitIsParity(x / 2, i - 1);
      HalveFirst(x, Pow2(i - 1));
    }
  }

  lemma {:induction false} BitOfQuotient(x: nat, n: nat, i: nat)
    ensures x / Pow2(n) >= 0 && (Bit(x / Pow2(n), i) <==> Bit(x, i + n))
    decreases n
  {
    if n > 0 {
      BitOfQuotient(x / 2, n - 1, i);
      HalveFirst(x, Pow2(n - 1));
    }
  }

  lemma {:induction false} BitOfRemainder(x: nat, n: nat, i: nat)
    requires i < n
    ensures Bit(x % Pow2(n), i) <==> Bit(x, i)
    decreases i
  {
    var y := x % Pow2(n);
    ModPow2Step(x, n - 1);
    hide Pow2;
    assert y / 2 == (x / 2) % Pow2(n - 1) && y % 2 == x % 2;
    if i > 0 {
      BitOfRemainder(x / 2, n - 1, i - 1);
    }
  }

  /** `b` below `a`, which is moved up by `k` digits. */
  lemma {:induction false} BitOfJoin(a: nat, k: nat, b: nat, i: nat)
    requires b < Pow2(k)
    ensures Bit(a * Pow2(k) + b, i) <==> if i < k then Bit(b, i) else Bit(a, i - k)
    decreases k
  {
    if k > 0 {
      var p := Pow2(k - 1);
      assert a * Pow2(k) == 2 * (a * p);
      assert (a * Pow2(k) + b) / 2 == a * p + b / 2 && (a * Pow2(k) + b) % 2 == b % 2;
      if i > 0 {
        BitOfJoin(a, k - 1, b / 2, i - 1);
      }
    }
  }

  lemma {:induction false} NoBitAbove(x: nat, n: nat, i: nat)
    requires x < Pow2(n) && i >= n
    ensures !Bit(x, i)
    decreases i
  {
    if n > 0 {
      NoBitAbove(x / 2, n - 1, i - 1);
    } else if i > 0 {
      NoBitAbove(x / 2, 0, i - 1);
    }
  }

  /** A number is determined by its digits. */
  lemma {:induction false} DigitsDetermine(x: nat, y: nat, n: nat)
    requires x < Pow2(n) && y < Pow2(n)
    requires forall i :: 0 <= i < n ==> (Bit(x, i) <==> Bit(y, i))
    ensures x == y
    decreases n
  {
    if n > 0 {
      forall i | 0 <= i < n - 1
        ensures Bit(x / 2, i) <==> Bit(y / 2, i)
      {
        assert Bit(x, i + 1) <==> Bit(y, i + 1);
      }
      DigitsDetermine(x / 2, y / 2, n - 1);
      assert Bit(x, 0) <==> Bit(y, 0);
    }
  }

  // ----- shifts and rotations

  lemma RotationDigit(x: uint32, n: nat, i: nat)
    requires 0 < n < 32 && i < 32
    ensures Bit(F.ROTR(x, n), i) <==> Bit(x, (i + n) % 32)
  {
    hide Bit, Pow2;
    F.RotationBound(x, n);
    BitOfJoin(x % Pow2(n), 32 - n, x / Pow2(n), i);
    if i < 32 - n {
      BitOfQuotient(x, n, i);
    } else {
      BitOfRemainder(x, n, i - (32 - n));
    }
  }

  lemma ShiftDigit(x: uint32, n: nat, i: nat)
    ensures Bit(F.SHR(x, n), i) <==> i + n < 32 && Bit(x, i + n)
  {
    hide Bit, Pow2, Shr;
    ShrIsDiv(x, n);
    BitOfQuotient(x, n, i);
    if i + n >= 32 {
      Pow2Values();
      NoBitAbove(x, 32, i + n);
    }
  }

  // ----- the six functions

  /** Ch chooses: where `x` has a one the digit of `y`, elsewhere that of `z`. */
  lemma ChDigits(x: uint32, y: uint32, z: uint32, i: nat)
    requires i < 32
    ensures Bit(F.Ch(x, y, z), i) <==> if Bit(x, i) then Bit(y, i) else Bit(z, i)
  {
    hide Bit, And, Xor, Pow2;
    Pow2Values();
    ComplementMeaning(x, 32, i);
    BitwiseMeaning(x, y, i);
    BitwiseMeaning(F.Complement(x), z, i);
    BitwiseMeaning(And(x, y), And(F.Complement(x), z), i);
  }

  /** Maj is the digit that at least two of the three have. */
  lemma MajDigits(x: uint32, y: uint32, z: uint32, i: nat)
    ensures Bit(F.Maj(x, y, z), i) <==> if Bit(x, i) == Bit(y, i) then Bit(x, i) else Bit(z, i)
  {
    hide Bit, And, Xor;
    BitwiseMeaning(x, y, i);
    BitwiseMeaning(x, z, i);
    BitwiseMeaning(y, z, i);
    BitwiseMeaning(And(x, y), And(x, z), i);
    BitwiseMeaning(Xor(And(x, y), And(x, z)), And(y, z), i);
  }

  /** The number of ones among three digits is odd. */
  predicate Parity(a: bool, b: bool, c: bool) {
    (a != b) != c
  }

  lemma ParityDigit(a: nat, b: nat, c: nat, i: nat)
    ensures Bit(Xor(Xor(a, b), c), i) <==> Parity(Bit(a, i), Bit(b, i), Bit(c, i))
  {
    hide Bit, Xor;
    BitwiseMeaning(a, b, i);
    BitwiseMeaning(Xor(a, b), c, i);
  }

  lemma BigSigma0Digits(x: uint32, i: nat)
    requires i < 32
    ensures Bit(F.BigSigma0(x), i) <==> Parity(Bit(x, (i + 2) % 32), Bit(x, (i + 13) % 32), Bit(x, (i + 22) % 32))
  {
    hide Bit, Xor, F.ROTR, Parity;
    ParityDigit(F.ROTR(x, 2), F.ROTR(x, 13), F.ROTR(x, 22), i);
    RotationDigit(x, 2, i);
    RotationDigit(x, 13, i);
    RotationDigit(x, 22, i);
  }

  lemma BigSigma1Digits(x: uint32, i: nat)
    requires i < 32
    ensures Bit(F.BigSigma1(x), i) <==> Parity(Bit(x, (i + 6) % 32), Bit(x, (i + 11) % 32), Bit(x, (i + 25) % 32))
  {
    hide Bit, Xor, F.ROTR, Parity;
    ParityDigit(F.ROTR(x, 6), F.ROTR(x, 11), F.ROTR(x, 25), i);
    RotationDigit(x, 6, i);
    RotationDigit(x, 11, i);
    RotationDigit(x, 25, i);
  }

  lemma SmallSigma0Digits(x: uint32, i: nat)
    requires i < 32
    ensures Bit(F.SmallSigma0(x), i)
         <==> Parity(Bit(x, (i + 7) % 32), Bit(x, (i + 18) % 32), i < 29 && Bit(x, i + 3))
  {
    hide Bit, Xor, F.ROTR, F.SHR, Parity;
    ParityDigit(F.ROTR(x, 7), F.ROTR(x, 18), F.SHR(x, 3), i);
    RotationDigit(x, 7, i);
    RotationDigit(x, 18, i);
    ShiftDigit(x, 3, i);
  }

  lemma SmallSigma1Digits(x: uint32, i: nat)
    requires i < 32
    ensures Bit(F.SmallSigma1(x), i)
         <==> Parity(Bit(x, (i + 17) % 32), Bit(x, (i + 19) % 32), i < 22 && Bit(x, i + 10))
  {
    hide Bit, Xor, F.ROTR, F.SHR, Parity;
    ParityDigit(F.ROTR(x, 17), F.ROTR(x, 19), F.SHR(x, 10), i);
    RotationDigit(x, 17, i);
    RotationDigit(x, 19, i);
    ShiftDigit(x, 10, i);
  }
}
