/** The first primes, found by trial division, and integer parts of roots: what the constants of SHA-256 are made of. */
module Primes {
  import opened Words

  ghost predicate IsPrime(n: nat) {
    n >= 2 && forall d :: 2 <= d < n ==> n % d != 0
  }

  ghost function PrimesBelow(n: nat): nat {
    if n == 0 then 0 else PrimesBelow(n - 1) + if IsPrime(n - 1) then 1 else 0
  }

  /** `p` is the prime with `t` primes below it: 2 for 0, 3 for 1, 5 for 2. */
  ghost predicate IsNthPrime(t: nat, p: nat) {
    IsPrime(p) && PrimesBelow(p) == t
  }

  // ----- there is one such prime at most

  lemma {:induction false} PrimesBelowGrows(p: nat, q: nat)
    requires p < q && IsPrime(p)
    ensures PrimesBelow(q) > PrimesBelow(p)
    decreases q
  {
    hide IsPrime;
    if q - 1 > p {
      PrimesBelowGrows(p, q - 1);
    }
  }

  lemma NthPrimeUnique(t: nat, p: nat, q: nat)
    requires IsNthPrime(t, p) && IsNthPrime(t, q)
    ensures p == q
  {
    hide IsPrime, PrimesBelow;
    if p < q {
      PrimesBelowGrows(p, q);
    } else if q < p {
      PrimesBelowGrows(q, p);
    }
  }

  // ----- trial division

  /** Below 18 * 18 the primes up to 17 suffice. */
  predicate Survives(n: nat) {
    n in {2, 3, 5, 7, 11, 13, 17}
    || (n >= 2 && n % 2 != 0 && n % 3 != 0 && n % 5 != 0 && n % 7 != 0 && n % 11 != 0 && n % 13 != 0 && n % 17 != 0)
  }

  /** What a factor divides, its own factors divide. */
  lemma FactorOfFactor(n: nat, c: nat, k: nat, s: nat)
    requires c > 0 && s > 0 && n % c == 0 && c == s * k
    ensures n % s == 0
  {
    var q := n / c;
    assert n == c * q;
    assert n == s * (k * q);
    ModMultiple(s, k * q);
  }

  lemma ModMultiple(s: nat, m: nat)
    requires s > 0
    ensures (s * m) % s == 0
  {
    DivModUnique(s * m, s, m, 0);
  }

  lemma SmallFactor(n: nat, c: nat)
    requires 2 <= c < 18 && c < n && n % c == 0
    ensures !Survives(n)
  {
    if c % 2 == 0 {
      FactorOfFactor(n, c, c / 2, 2);
    } else if c % 3 == 0 {
      FactorOfFactor(n, c, c / 3, 3);
    } else {
      assert c in {5, 7, 11, 13, 17};
    }
  }

  /** Of two factors one is below 18. */
  lemma FactorBelow18(n: nat, d: nat)
    requires 2 <= d < n < 324 && n % d == 0
    ensures !Survives(n)
  {
    hide Survives;
    var q := n / d;
    assert n == d * q;
    if d < 18 {
      SmallFactor(n, d);
    } else {
      assert 2 <= q < 18;
      ModMultiple(q, d);
      SmallFactor(n, q);
    }
  }

  lemma SurvivorIsPrime(n: nat)
    requires n < 324 && Survives(n)
    ensures IsPrime(n)
  {
    forall d | 2 <= d < n
      ensures n % d != 0
    {
      if n % d == 0 {
        FactorBelow18(n, d);
      }
    }
  }

  lemma PrimeIffSurvives(n: nat)
    requires n < 324
    ensures IsPrime(n) <==> Survives(n)
  {
    if Survives(n) {
      SurvivorIsPrime(n);
    } else if n >= 2 {
      var d :| d in {2, 3, 5, 7, 11, 13, 17} && n % d == 0;
      assert d < n;
    }
  }

  /** No odd number strictly between the two, the first of them odd, survives. */
  predicate NoneBetween(p: nat, q: nat)
    decreases q - p
  {
    p + 2 >= q || (!Survives(p + 2) && NoneBetween(p + 2, q))
  }

  lemma {:induction false} NoPrimeBetween(p: nat, q: nat)
    requires 2 < p < q < 324 && p % 2 == 1 && q % 2 == 1 && NoneBetween(p, q)
    ensures PrimesBelow(q) == PrimesBelow(p + 1)
    decreases q - p
  {
    hide IsPrime, Survives;
    assert !IsPrime(p + 1) by { EvenNotPrime(p + 1); }
    assert PrimesBelow(p + 2) == PrimesBelow(p + 1);
    if p + 2 < q {
      PrimeIffSurvives(p + 2);
      NoPrimeBetween(p + 2, q);
    }
  }

  lemma EvenNotPrime(n: nat)
    requires n > 2 && n % 2 == 0
    ensures !IsPrime(n)
  {
  }

  lemma FirstPrimes()
    ensures IsNthPrime(0, 2) && IsNthPrime(1, 3)
  {
    PrimeIffSurvives(2);
    PrimeIffSurvives(3);
    assert PrimesBelow(2) == 0;
  }

  lemma NextPrime(t: nat, p: nat, q: nat)
    requires IsNthPrime(t, p) && 2 < p < q < 324 && p % 2 == 1 && Survives(q) && NoneBetween(p, q)
    ensures IsNthPrime(t + 1, q)
  {
    assert q % 2 == 1;
    hide IsPrime, Survives, NoneBetween;
    NoPrimeBetween(p, q);
    SurvivorIsPrime(q);
  }

  // ----- the first 64 primes, eight by eight

  lemma Primes0To7()
    ensures IsNthPrime(0, 2) && IsNthPrime(1, 3) && IsNthPrime(2, 5) && IsNthPrime(3, 7)
    ensures IsNthPrime(4, 11) && IsNthPrime(5, 13) && IsNthPrime(6, 17) && IsNthPrime(7, 19)
    ensures IsNthPrime(8, 23)
  {
    hide IsNthPrime;
    FirstPrimes();
    NextPrime(1, 3, 5); NextPrime(2, 5, 7); NextPrime(3, 7, 11); NextPrime(4, 11, 13);
    NextPrime(5, 13, 17); NextPrime(6, 17, 19); NextPrime(7, 19, 23);
  }

  lemma Primes8To15()
    requires IsNthPrime(8, 23)
    ensures IsNthPrime(9, 29) && IsNthPrime(10, 31) && IsNthPrime(11, 37) && IsNthPrime(12, 41)
    ensures IsNthPrime(13, 43) && IsNthPrime(14, 47) && IsNthPrime(15, 53) && IsNthPrime(16, 59)
  {
    hide IsNthPrime;
    NextPrime(8, 23, 29); NextPrime(9, 29, 31); NextPrime(10, 31, 37); NextPrime(11, 37, 41);
    NextPrime(12, 41, 43); NextPrime(13, 43, 47); NextPrime(14, 47, 53); NextPrime(15, 53, 59);
  }

  lemma Primes16To23()
    requires IsNthPrime(16, 59)
    ensures IsNthPrime(17, 61) && IsNthPrime(18, 67) && IsNthPrime(19, 71) && IsNthPrime(20, 73)
    ensures IsNthPrime(21, 79) && IsNthPrime(22, 83) && IsNthPrime(23, 89) && IsNthPrime(24, 97)
  {
    hide IsNthPrime;
    NextPrime(16, 59, 61); NextPrime(17, 61, 67); NextPrime(18, 67, 71); NextPrime(19, 71, 73);
    NextPrime(20, 73, 79); NextPrime(21, 79, 83); NextPrime(22, 83, 89); NextPrime(23, 89, 97);
  }

  lemma Primes24To31()
    requires IsNthPrime(24, 97)
    ensures IsNthPrime(25, 101) && IsNthPrime(26, 103) && IsNthPrime(27, 107) && IsNthPrime(28, 109)
    ensures IsNthPrime(29, 113) && IsNthPrime(30, 127) && IsNthPrime(31, 131) && IsNthPrime(32, 137)
  {
    hide IsNthPrime;
    NextPrime(24, 97, 101); NextPrime(25, 101, 103); NextPrime(26, 103, 107); NextPrime(27, 107, 109);
    NextPrime(28, 109, 113); NextPrime(29, 113, 127); NextPrime(30, 127, 131); NextPrime(31, 131, 137);
  }

  lemma Primes32To39()
    requires IsNthPrime(32, 137)
    ensures IsNthPrime(33, 139) && IsNthPrime(34, 149) && IsNthPrime(35, 151) && IsNthPrime(36, 157)
    ensures IsNthPrime(37, 163) && IsNthPrime(38, 167) && IsNthPrime(39, 173) && IsNthPrime(40, 179)
  {
    hide IsNthPrime;
    NextPrime(32, 137, 139); NextPrime(33, 139, 149); NextPrime(34, 149, 151); NextPrime(35, 151, 157);
    NextPrime(36, 157, 163); NextPrime(37, 163, 167); NextPrime(38, 167, 173); NextPrime(39, 173, 179);
  }

  lemma Primes40To47()
    requires IsNthPrime(40, 179)
    ensures IsNthPrime(41, 181) && IsNthPrime(42, 191) && IsNthPrime(43, 193) && IsNthPrime(44, 197)
    ensures IsNthPrime(45, 199) && IsNthPrime(46, 211) && IsNthPrime(47, 223) && IsNthPrime(48, 227)
  {
    hide IsNthPrime;
    NextPrime(40, 179, 181); NextPrime(41, 181, 191); NextPrime(42, 191, 193); NextPrime(43, 193, 197);
    NextPrime(44, 197, 199); NextPrime(45, 199, 211); NextPrime(46, 211, 223); NextPrime(47, 223, 227);
  }

  lemma Primes48To55()
    requires IsNthPrime(48, 227)
    ensures IsNthPrime(49, 229) && IsNthPrime(50, 233) && IsNthPrime(51, 239) && IsNthPrime(52, 241)
    ensures IsNthPrime(53, 251) && IsNthPrime(54, 257) && IsNthPrime(55, 263) && IsNthPrime(56, 269)
  {
    hide IsNthPrime;
    NextPrime(48, 227, 229); NextPrime(49, 229, 233); NextPrime(50, 233, 239); NextPrime(51, 239, 241);
    NextPrime(52, 241, 251); NextPrime(53, 251, 257); NextPrime(54, 257, 263); NextPrime(55, 263, 269);
  }

  lemma Primes56To63()
    requires IsNthPrime(56, 269)
    ensures IsNthPrime(57, 271) && IsNthPrime(58, 277) && IsNthPrime(59, 281) && IsNthPrime(60, 283)
    ensures IsNthPrime(61, 293) && IsNthPrime(62, 307) && IsNthPrime(63, 311)
  {
    hide IsNthPrime;
    NextPrime(56, 269, 271); NextPrime(57, 271, 277); NextPrime(58, 277, 281); NextPrime(59, 281, 283);
    NextPrime(60, 283, 293); NextPrime(61, 293, 307); NextPrime(62, 307, 311);
  }
}
