/** The exponent of two in a number, and in 33^k - 1. */
module Valuation {
  import opened Words

  ghost function V2(n: nat): nat
    requires n > 0
  {
    if n % 2 == 1 then 0 else 1 + V2(n / 2)
  }

  /** 2^e divides n exactly when e is at most V2(n). */
  lemma {:induction false} DividesIffV2(n: nat, e: nat)
    requires n > 0
    ensures n % Pow2(e) == 0 <==> e <= V2(n)
  {
    if e == 0 {
      assert Pow2(0) == 1;
    } else {
      ModPow2Step(n, e - 1);
      if n % 2 == 0 {
        DividesIffV2(n / 2, e - 1);
      }
    }
  }

  lemma {:induction false} V2Product(m: nat, n: nat)
    requires m > 0 && n > 0
    ensures m * n > 0 && V2(m * n) == V2(m) + V2(n)
    decreases m + n
  {
    hide V2;
    MulMonotone(m, 1, n);
    if m % 2 == 0 {
      var a := m / 2;
      V2Product(a, n);
      DoubleProduct(a, n);
      V2Double(a);
      V2Double(a * n);
    } else if n % 2 == 0 {
      var b := n / 2;
      V2Product(m, b);
      DoubleProduct(b, m);
      V2Double(b);
      V2Double(m * b);
    } else {
      OddProduct(m, n);
      V2Odd(m);
      V2Odd(n);
      V2Odd(m * n);
    }
  }

  lemma V2Double(n: nat)
    requires n > 0
    ensures V2(2 * n) == 1 + V2(n)
  {
  }

  lemma V2Odd(n: nat)
    requires n % 2 == 1
    ensures V2(n) == 0
  {
  }

  lemma DoubleProduct(a: nat, b: nat)
    ensures (2 * a) * b == 2 * (a * b) && b * (2 * a) == 2 * (b * a)
  {
  }

  lemma OddProduct(m: nat, n: nat)
    requires m % 2 == 1 && n % 2 == 1
    ensures (m * n) % 2 == 1
  {
    var b := n / 2;
    DoubleProduct(b, m);
    OneMore(2 * b, m);
    OddSum(b * m, m);
  }

  lemma OneMore(a: nat, m: nat)
    ensures m * (a + 1) == m * a + m
  {
  }

  lemma OddSum(a: nat, m: nat)
    requires m % 2 == 1
    ensures (2 * a + m) % 2 == 1
  {
  }

  lemma {:induction false} V2Bound(n: nat, e: nat)
    requires 0 < n < Pow2(e)
    ensures V2(n) < e
  {
    if e > 0 && n % 2 == 0 {
      V2Bound(n / 2, e - 1);
    }
  }

  // ----- powers of 33

  lemma {:induction false} Pow33Mod4(k: nat)
    ensures Pow(33, k) % 4 == 1
  {
    if k > 0 {
      Pow33Mod4(k - 1);
    }
  }

  /** 33^k is 1 modulo 64 for even k and 33 for odd k. */
  lemma {:induction false} Pow33Mod64(k: nat)
    ensures Pow(33, k) % 64 == if k % 2 == 0 then 1 else 33
  {
    if k > 0 {
      Pow33Mod64(k - 1);
      Times33Mod64(Pow(33, k - 1));
    }
  }

  lemma Times33Mod64(x: nat)
    ensures x % 64 == 1 ==> (33 * x) % 64 == 33
    ensures x % 64 == 33 ==> (33 * x) % 64 == 1
  {
    var q := x / 64;
    if x % 64 == 1 {
      DivModUnique(33 * x, 64, 33 * q, 33);
    } else if x % 64 == 33 {
      DivModUnique(33 * x, 64, 33 * q + 17, 1);
    }
  }

  /** V2(33^k - 1) = 5 + V2(k): squaring doubles k and contributes one factor of two. */
  lemma {:induction false} V2Pow33(k: nat)
    requires k > 0
    ensures Pow(33, k) > 1 && V2(Pow(33, k) - 1) == 5 + V2(k)
  {
    hide V2, Pow;
    if k % 2 == 1 {
      OddPower(k);
    } else {
      V2Pow33(k / 2);
      Squared(k / 2);
    }
  }

  lemma OddPower(k: nat)
    requires k % 2 == 1
    ensures Pow(33, k) > 1 && V2(Pow(33, k) - 1) == 5 + V2(k)
  {
    hide V2, Pow;
    Pow33Positive(k);
    Pow33Mod64(k);
    V2Odd(k);
    LessOne(Pow(33, k));
    ThirtyTwoTimesOdd(Pow(33, k) - 1);
  }

  lemma LessOne(x: nat)
    requires x % 64 == 33
    ensures x > 1 && (x - 1) % 64 == 32
  {
  }

  lemma Squared(h: nat)
    requires h > 0 && Pow(33, h) > 1 && V2(Pow(33, h) - 1) == 5 + V2(h)
    ensures Pow(33, 2 * h) > 1 && V2(Pow(33, 2 * h) - 1) == 5 + V2(2 * h)
  {
    hide V2, Pow;
    Pow33Mod4(h);
    V2Double(h);
    PowAdd(33, h, h);
    assert h + h == 2 * h;
    SquareMinusOne(Pow(33, h));
  }

  lemma SquareMinusOne(p: nat)
    requires p > 1 && p % 4 == 1
    ensures p * p - 1 > 0 && V2(p * p - 1) == V2(p - 1) + 1
  {
    hide V2;
    assert p * p - 1 == (p - 1) * (p + 1);
    TwiceOdd(p + 1);
    V2Product(p - 1, p + 1);
  }

  lemma TwiceOdd(n: nat)
    requires n % 4 == 2
    ensures V2(n) == 1
  {
    assert (n / 2) % 2 == 1;
  }

  lemma {:induction false} Pow33Positive(k: nat)
    ensures Pow(33, k) >= 1 && (k > 0 ==> Pow(33, k) >= 33)
  {
    if k > 0 {
      Pow33Positive(k - 1);
    }
  }

  lemma ThirtyTwoTimesOdd(n: nat)
    requires n % 64 == 32
    ensures V2(n) == 5
  {
    hide V2;
    var o := 2 * (n / 64) + 1;
    V2Odd(o);
    V2Double(o);
    V2Double(2 * o);
    V2Double(4 * o);
    V2Double(8 * o);
    V2Double(16 * o);
  }
}
