/** Where the constants of SHA-256 come from, said without naming a table: the round constants are the first 32
    fractional bits of the cube roots of the first 64 primes, and the initial hash value holds those of the square roots
    of the first eight (sections 4.2.2 and 5.3.3 of FIPS 180-4). */
module RootConstants {
  import opened Words
  import opened Primes
  import F = Fips180

  /** `z` is the integer part of 2^32 times the square root of `p`. */
  predicate ScaledSquareRoot(z: nat, p: nat) {
    z * z <= p * 0x1_0000_0000_0000_0000 < (z + 1) * (z + 1)
  }

  /** `z` is the integer part of 2^32 times the cube root of `p`. */
  predicate ScaledCubeRoot(z: nat, p: nat) {
    z * (z * z) <= p * 0x1_0000_0000_0000_0000_0000_0000 < (z + 1) * ((z + 1) * (z + 1))
  }

  predicate IntegerSquareRoot(i: nat, p: nat) {
    i * i <= p < (i + 1) * (i + 1)
  }

  predicate IntegerCubeRoot(i: nat, p: nat) {
    i * (i * i) <= p < (i + 1) * ((i + 1) * (i + 1))
  }

  /** `k` is the first 32 binary digits after the point of the square root of `p`. */
  ghost predicate IsSquareRootFraction(k: nat, p: nat) {
    exists i: nat :: IntegerSquareRoot(i, p) && ScaledSquareRoot(i * 0x1_0000_0000 + k, p)
  }

  /** Likewise of the cube root. */
  ghost predicate IsCubeRootFraction(k: nat, p: nat) {
    exists i: nat :: IntegerCubeRoot(i, p) && ScaledCubeRoot(i * 0x1_0000_0000 + k, p)
  }

  lemma SquareMonotone(a: nat, b: nat)
    requires a <= b
    ensures a * a <= b * b
  {
    MulMonotone(a, a, b);
    MulMonotone(b, a, b);
  }

  lemma CubeMonotone(a: nat, b: nat)
    requires a <= b
    ensures a * (a * a) <= b * (b * b)
  {
    SquareMonotone(a, b);
    MulMonotone(a, a * a, b * b);
    MulMonotone(b * b, a, b);
  }

  /** What stands above the low 32 digits is the integer part of the root. */
  lemma SquareIntegerPart(i: nat, k: nat, p: nat)
    requires k < 0x1_0000_0000 && ScaledSquareRoot(i * 0x1_0000_0000 + k, p)
    ensures IntegerSquareRoot(i, p)
  {
    var z := i * 0x1_0000_0000 + k;
    SquareMonotone(i * 0x1_0000_0000, z);
    SquareMonotone(z + 1, (i + 1) * 0x1_0000_0000);
  }

  lemma CubeIntegerPart(i: nat, k: nat, p: nat)
    requires k < 0x1_0000_0000 && ScaledCubeRoot(i * 0x1_0000_0000 + k, p)
    ensures IntegerCubeRoot(i, p)
  {
    var z := i * 0x1_0000_0000 + k;
    CubeMonotone(i * 0x1_0000_0000, z);
    CubeMonotone(z + 1, (i + 1) * 0x1_0000_0000);
  }

  // ----- the round constants

  /** The round constant `t` belongs to some prime with `t` primes below it, hence to the only one. */
  ghost predicate Found(t: nat)
    requires t < 64
  {
    exists p :: IsNthPrime(t, p) && IsCubeRootFraction(F.RoundConstant(t), p)
  }

  ghost predicate FoundBelow(t: nat)
    requires t <= 64
  {
    forall j :: 0 <= j < t ==> Found(j)
  }

  lemma NoneYet()
    ensures FoundBelow(0)
  {
  }

  lemma Entry(t: nat, p: nat, i: nat, k: nat)
    requires t < 64 && FoundBelow(t) && IsNthPrime(t, p)
    requires F.RoundConstant(t) == k && ScaledCubeRoot(i * 0x1_0000_0000 + k, p)
    ensures FoundBelow(t + 1)
  {
    hide IsNthPrime, F.RoundConstant, ScaledCubeRoot, IntegerCubeRoot;
    CubeIntegerPart(i, k, p);
    assert Found(t);
  }

  lemma Entries0To7()
    ensures FoundBelow(8) && IsNthPrime(8, 23)
  {
    hide IsNthPrime, Found, FoundBelow;
    NoneYet();
    Primes0To7();
    Entry(0, 2, 1, 0x428a2f98); Entry(1, 3, 1, 0x71374491); Entry(2, 5, 1, 0xb5c0fbcf);
    Entry(3, 7, 1, 0xe9b5dba5); Entry(4, 11, 2, 0x3956c25b); Entry(5, 13, 2, 0x59f111f1);
    Entry(6, 17, 2, 0x923f82a4); Entry(7, 19, 2, 0xab1c5ed5);
  }

  lemma Entries8To15()
    requires FoundBelow(8) && IsNthPrime(8, 23)
    ensures FoundBelow(16) && IsNthPrime(16, 59)
  {
    hide IsNthPrime, Found, FoundBelow;
    Primes8To15();
    Entry(8, 23, 2, 0xd807aa98); Entry(9, 29, 3, 0x12835b01); Entry(10, 31, 3, 0x243185be);
    Entry(11, 37, 3, 0x550c7dc3); Entry(12, 41, 3, 0x72be5d74); Entry(13, 43, 3, 0x80deb1fe);
    Entry(14, 47, 3, 0x9bdc06a7); Entry(15, 53, 3, 0xc19bf174);
  }

  lemma Entries16To23()
    requires FoundBelow(16) && IsNthPrime(16, 59)
    ensures FoundBelow(24) && IsNthPrime(24, 97)
  {
    hide IsNthPrime, Found, FoundBelow;
    Primes16To23();
    Entry(16, 59, 3, 0xe49b69c1); Entry(17, 61, 3, 0xefbe4786); Entry(18, 67, 4, 0x0fc19dc6);
    Entry(19, 71, 4, 0x240ca1cc); Entry(20, 73, 4, 0x2de92c6f); Entry(21, 79, 4, 0x4a7484aa);
    Entry(22, 83, 4, 0x5cb0a9dc); Entry(23, 89, 4, 0x76f988da);
  }

  lemma Entries24To31()
    requires FoundBelow(24) && IsNthPrime(24, 97)
    ensures FoundBelow(32) && IsNthPrime(32, 137)
  {
    hide IsNthPrime, Found, FoundBelow;
    Primes24To31();
    Entry(24, 97, 4, 0x983e5152); Entry(25, 101, 4, 0xa831c66d); Entry(26, 103, 4, 0xb00327c8);
    Entry(27, 107, 4, 0xbf597fc7); Entry(28, 109, 4, 0xc6e00bf3); Entry(29, 113, 4, 0xd5a79147);
    Entry(30, 127, 5, 0x06ca6351); Entry(31, 131, 5, 0x14292967);
  }

  lemma Entries32To39()
    requires FoundBelow(32) && IsNthPrime(32, 137)
    ensures FoundBelow(40) && IsNthPrime(40, 179)
  {
    hide IsNthPrime, Found, FoundBelow;
    Primes32To39();
    Entry(32, 137, 5, 0x27b70a85); Entry(33, 139, 5, 0x2e1b2138); Entry(34, 149, 5, 0x4d2c6dfc);
    Entry(35, 151, 5, 0x53380d13); Entry(36, 157, 5, 0x650a7354); Entry(37, 163, 5, 0x766a0abb);
    Entry(38, 167, 5, 0x81c2c92e); Entry(39, 173, 5, 0x92722c85);
  }

  lemma Entries40To47()
    requires FoundBelow(40) && IsNthPrime(40, 179)
    ensures FoundBelow(48) && IsNthPrime(48, 227)
  {
    hide IsNthPrime, Found, FoundBelow;
    Primes40To47();
    Entry(40, 179, 5, 0xa2bfe8a1); Entry(41, 181, 5, 0xa81a664b); Entry(42, 191, 5, 0xc24b8b70);
    Entry(43, 193, 5, 0xc76c51a3); Entry(44, 197, 5, 0xd192e819); Entry(45, 199, 5, 0xd6990624);
    Entry(46, 211, 5, 0xf40e3585); Entry(47, 223, 6, 0x106aa070);
  }

  lemma Entries48To55()
    requires FoundBelow(48) && IsNthPrime(48, 227)
    ensures FoundBelow(56) && IsNthPrime(56, 269)
  {
    hide IsNthPrime, Found, FoundBelow;
    Primes48To55();
    Entry(48, 227, 6, 0x19a4c116); Entry(49, 229, 6, 0x1e376c08); Entry(50, 233, 6, 0x2748774c);
    Entry(51, 239, 6, 0x34b0bcb5); Entry(52, 241, 6, 0x391c0cb3); Entry(53, 251, 6, 0x4ed8aa4a);
    Entry(54, 257, 6, 0x5b9cca4f); Entry(55, 263, 6, 0x682e6ff3);
  }

  lemma Entries56To63()
    requires FoundBelow(56) && IsNthPrime(56, 269)
    ensures FoundBelow(64)
  {
    hide IsNthPrime, Found, FoundBelow;
    Primes56To63();
    Entry(56, 269, 6, 0x748f82ee); Entry(57, 271, 6, 0x78a5636f); Entry(58, 277, 6, 0x84c87814);
    Entry(59, 281, 6, 0x8cc70208); Entry(60, 283, 6, 0x90befffa); Entry(61, 293, 6, 0xa4506ceb);
    Entry(62, 307, 6, 0xbef9a3f7); Entry(63, 311, 6, 0xc67178f2);
  }

  /** Every round constant is made of the cube root of its prime, and there is such a prime. */
  lemma RoundConstantIsCubeRoot(t: nat)
    requires t < 64
    ensures exists p :: IsNthPrime(t, p)
    ensures forall p :: IsNthPrime(t, p) ==> IsCubeRootFraction(F.RoundConstant(t), p)
  {
    hide IsNthPrime, IsCubeRootFraction, F.RoundConstant;
    Entries0To7();
    Entries8To15();
    Entries16To23();
    Entries24To31();
    Entries32To39();
    Entries40To47();
    Entries48To55();
    Entries56To63();
    assert Found(t);
    var q :| IsNthPrime(t, q) && IsCubeRootFraction(F.RoundConstant(t), q);
    forall p | IsNthPrime(t, p)
      ensures IsCubeRootFraction(F.RoundConstant(t), p)
    {
      NthPrimeUnique(t, p, q);
    }
  }

  // ----- the initial hash value

  /** The words in the order of section 6.2.2: a to h. */
  function InitialWord(j: nat): nat
    requires j < 8
  {
    var v := F.INITIAL_HASH;
    [v.a, v.b, v.c, v.d, v.e, v.f, v.g, v.h][j]
  }

  lemma SquareRoot(j: nat, p: nat, q: nat, i: nat, k: nat)
    requires j < 8 && IsNthPrime(j, q) && IsNthPrime(j, p)
    requires InitialWord(j) == k && k < 0x1_0000_0000 && ScaledSquareRoot(i * 0x1_0000_0000 + k, q)
    ensures IsSquareRootFraction(InitialWord(j), p)
  {
    NthPrimeUnique(j, p, q);
    hide IsNthPrime, InitialWord, ScaledSquareRoot, IntegerSquareRoot;
    SquareIntegerPart(i, k, q);
  }

  /** Every word of the initial hash value is made of the square root of its prime. */
  lemma InitialHashIsSquareRoots(j: nat, p: nat)
    requires j < 8 && IsNthPrime(j, p)
    ensures IsSquareRootFraction(InitialWord(j), p)
  {
    hide IsNthPrime, IsSquareRootFraction;
    Primes0To7();
    match j
    case 0 => SquareRoot(0, p, 2, 1, 0x6a09e667);
    case 1 => SquareRoot(1, p, 3, 1, 0xbb67ae85);
    case 2 => SquareRoot(2, p, 5, 2, 0x3c6ef372);
    case 3 => SquareRoot(3, p, 7, 2, 0xa54ff53a);
    case 4 => SquareRoot(4, p, 11, 3, 0x510e527f);
    case 5 => SquareRoot(5, p, 13, 3, 0x9b05688c);
    case 6 => SquareRoot(6, p, 17, 4, 0x1f83d9ab);
    case _ => SquareRoot(7, p, 19, 4, 0x5be0cd19);
  }
}
