/** Machine words as natural numbers: the unsigned types of the C++ sources, their wrapping
    arithmetic, and the bitwise operators defined on binary digits.

    `uint32_t` is `uint32`; `word_t` (`unsigned long` on 64-bit Linux) is `word64`. */
module Words {

  type byte = x: nat | x < 0x100
  type uint32 = x: nat | x < 0x1_0000_0000
  type word64 = x: nat | x < 0x1_0000_0000_0000_0000

  // ----- wrapping arithmetic

  function Add32(x: uint32, y: uint32): uint32 {
    (x + y) % 0x1_0000_0000
  }

  function Sub32(x: uint32, y: uint32): uint32 {
    (x - y) % 0x1_0000_0000
  }

  function Shl32(x: uint32, n: nat): uint32 {
    (x * Pow2(n)) % 0x1_0000_0000
  }

  function Add64(x: nat, y: nat): word64 {
    (x + y) % 0x1_0000_0000_0000_0000
  }

  function Shl64(x: word64, n: nat): word64 {
    (x * Pow2(n)) % 0x1_0000_0000_0000_0000
  }

  function Shr(x: nat, n: nat): nat {
    if n == 0 then x else Shr(x / 2, n - 1)
  }

  function Not64(x: word64): word64 {
    0xffff_ffff_ffff_ffff - x
  }

  // ----- bitwise operators, digit by digit

  function And(x: nat, y: nat): nat {
    if x == 0 || y == 0 then 0 else 2 * And(x / 2, y / 2) + (if x % 2 == 1 && y % 2 == 1 then 1 else 0)
  }

  function Or(x: nat, y: nat): nat
    decreases x + y
  {
    if x == 0 && y == 0 then 0 else 2 * Or(x / 2, y / 2) + (if x % 2 == 1 || y % 2 == 1 then 1 else 0)
  }

  function Xor(x: nat, y: nat): nat
    decreases x + y
  {
    if x == 0 && y == 0 then 0 else 2 * Xor(x / 2, y / 2) + (if x % 2 != y % 2 then 1 else 0)
  }

  function Mask32(x: nat): uint32 {
    AndBound(x, 0xffff_ffff);
    And(x, 0xffff_ffff)
  }

  /** The binary digit of weight 2^i. */
  ghost predicate Bit(x: nat, i: nat) {
    if i == 0 then x % 2 == 1 else Bit(x / 2, i - 1)
  }

  /** The operators act digit by digit. */
  lemma {:induction false} BitwiseMeaning(x: nat, y: nat, i: nat)
    ensures Bit(And(x, y), i) <==> Bit(x, i) && Bit(y, i)
    ensures Bit(Or(x, y), i) <==> Bit(x, i) || Bit(y, i)
    ensures Bit(Xor(x, y), i) <==> Bit(x, i) != Bit(y, i)
    decreases i
  {
    hide And, Or, Xor;
    AndDigits(x, y);
    OrDigits(x, y);
    XorDigits(x, y);
    if i > 0 {
      BitwiseMeaning(x / 2, y / 2, i - 1);
    }
  }

  lemma AndDigits(x: nat, y: nat)
    ensures And(x, y) / 2 == And(x / 2, y / 2) && (And(x, y) % 2 == 1 <==> x % 2 == 1 && y % 2 == 1)
  {
  }

  lemma OrDigits(x: nat, y: nat)
    ensures Or(x, y) / 2 == Or(x / 2, y / 2) && (Or(x, y) % 2 == 1 <==> x % 2 == 1 || y % 2 == 1)
  {
  }

  lemma XorDigits(x: nat, y: nat)
    ensures Xor(x, y) / 2 == Xor(x / 2, y / 2) && (Xor(x, y) % 2 == 1 <==> x % 2 != y % 2)
  {
  }

  /** `2^n - 1 - x` is `x` with its `n` digits inverted. */
  lemma {:induction false} ComplementMeaning(x: nat, n: nat, i: nat)
    requires x < Pow2(n) && i < n
    ensures Bit(Pow2(n) - 1 - x, i) <==> !Bit(x, i)
    decreases i
  {
    assert Pow2(n) == 2 * Pow2(n - 1);
    if i > 0 {
      assert (Pow2(n) - 1 - x) / 2 == Pow2(n - 1) - 1 - x / 2;
      ComplementMeaning(x / 2, n - 1, i - 1);
    }
  }

  // ----- powers and remainders

  function Pow(b: nat, e: nat): nat {
    if e == 0 then 1 else b * Pow(b, e - 1)
  }

  function Pow2(n: nat): (p: nat)
    ensures p > 0
  {
    if n == 0 then 1 else 2 * Pow2(n - 1)
  }

  lemma {:induction false} Pow2Add(a: nat, b: nat)
    ensures Pow2(a + b) == Pow2(a) * Pow2(b)
  {
    if a > 0 {
      Pow2Add(a - 1, b);
      MulAssoc(2, Pow2(a - 1), Pow2(b));
    }
  }

  lemma MulAssoc(a: int, b: int, c: int)
    ensures a * (b * c) == (a * b) * c
  {
  }

  lemma {:induction false} PowAdd(b: nat, m: nat, n: nat)
    ensures Pow(b, m + n) == Pow(b, m) * Pow(b, n)
  {
    if m > 0 {
      PowAdd(b, m - 1, n);
      assert m - 1 + n == m + n - 1;
      MulAssoc(b, Pow(b, m - 1), Pow(b, n));
    }
  }

  lemma Pow2Values()
    ensures Pow2(3) == 8 && Pow2(5) == 32 && Pow2(8) == 0x100 && Pow2(13) == 0x2000
    ensures Pow2(16) == 0x1_0000 && Pow2(24) == 0x100_0000
    ensures Pow2(32) == 0x1_0000_0000 && Pow2(64) == 0x1_0000_0000_0000_0000
  {
    assert Pow2(3) == 8 && Pow2(5) == 32 && Pow2(8) == 0x100 && Pow2(13) == 0x2000;
    hide Pow2;
    Pow2Sum(8, 8, 0x100, 0x100);
    Pow2Sum(16, 8, 0x1_0000, 0x100);
    Pow2Sum(16, 16, 0x1_0000, 0x1_0000);
    Pow2Sum(32, 32, 0x1_0000_0000, 0x1_0000_0000);
  }

  lemma Pow2Sum(a: nat, b: nat, p: nat, q: nat)
    requires Pow2(a) == p && Pow2(b) == q
    ensures Pow2(a + b) == p * q
  {
    Pow2Add(a, b);
  }

  /** Quotient and remainder are the only pair that reassembles the number. */
  lemma DivModUnique(x: int, m: int, q: int, r: int)
    requires m > 0 && 0 <= r < m && x == m * q + r
    ensures x / m == q && x % m == r
  {
    var d := x / m - q;
    assert m * (x / m) + x % m == x;
    assert m * d == r - x % m;
    if d >= 1 {
      MulMonotone(m, 1, d);
    } else if d <= -1 {
      MulMonotone(m, d, -1);
    }
  }

  /** Reducing a summand first changes nothing modulo 2^32. */
  lemma ModSum(a: nat, b: nat)
    ensures (a % 0x1_0000_0000 + b) % 0x1_0000_0000 == (a + b) % 0x1_0000_0000
  {
  }

  lemma MulMonotone(m: nat, a: int, b: int)
    requires a <= b
    ensures m * a <= m * b
  {
  }

  /** Peeling the lowest binary digit off a remainder modulo a power of two. */
  lemma ModPow2Step(x: nat, k: nat)
    ensures x % Pow2(k + 1) == 2 * ((x / 2) % Pow2(k)) + x % 2
  {
    var p := Pow2(k);
    var q, r := (x / 2) / p, (x / 2) % p;
    assert x / 2 == p * q + r;
    assert x == (2 * p) * q + (2 * r + x % 2);
    DivModUnique(x, 2 * p, q, 2 * r + x % 2);
  }

  lemma HalveFirst(x: nat, p: nat)
    requires p > 0
    ensures (x / 2) / p == x / (2 * p)
  {
    var q, r := (x / 2) / p, (x / 2) % p;
    MulAssoc(2, p, q);
    DivModUnique(x, 2 * p, q, 2 * r + x % 2);
  }

  lemma {:induction false} ShrIsDiv(x: nat, n: nat)
    ensures Shr(x, n) == x / Pow2(n)
  {
    if n > 0 {
      ShrIsDiv(x / 2, n - 1);
      HalveFirst(x, Pow2(n - 1));
      assert Pow2(n) == 2 * Pow2(n - 1);
      hide Pow2;
    }
  }

  // ----- what the bitwise operators do to numbers

  lemma {:induction false} AndMask(x: nat, k: nat)
    ensures And(x, Pow2(k) - 1) == x % Pow2(k)
  {
    if x == 0 || k == 0 {
      assert Pow2(0) == 1;
    } else {
      AndMask(x / 2, k - 1);
      ModPow2Step(x, k - 1);
      assert (Pow2(k) - 1) / 2 == Pow2(k - 1) - 1;
      assert (Pow2(k) - 1) % 2 == 1;
    }
  }

  lemma Mask32IsMod(x: nat)
    ensures Mask32(x) == x % 0x1_0000_0000
  {
    Pow2Values();
    AndMask(x, 32);
  }

  lemma OrStep(a: nat, b: nat, xb: nat, yb: nat)
    requires xb < 2 && yb < 2
    ensures Or(2 * a + xb, 2 * b + yb) == 2 * Or(a, b) + (if xb == 1 || yb == 1 then 1 else 0)
  {
    assert (2 * a + xb) / 2 == a && (2 * b + yb) / 2 == b;
  }

  lemma OrModStep(x: nat, y: nat, j: nat)
    requires Or(x / 2, y / 2) % Pow2(j) == Or((x / 2) % Pow2(j), (y / 2) % Pow2(j))
    ensures Or(x, y) % Pow2(j + 1) == Or(x % Pow2(j + 1), y % Pow2(j + 1))
  {
    hide Or, Pow2;
    OrStep(x / 2, y / 2, x % 2, y % 2);
    assert x == 2 * (x / 2) + x % 2 && y == 2 * (y / 2) + y % 2;
    assert Or(x, y) / 2 == Or(x / 2, y / 2);
    OrStep((x / 2) % Pow2(j), (y / 2) % Pow2(j), x % 2, y % 2);
    ModPow2Step(x, j);
    ModPow2Step(y, j);
    ModPow2Step(Or(x, y), j);
  }

  lemma {:induction false} OrMod(x: nat, y: nat, k: nat)
    ensures Or(x, y) % Pow2(k) == Or(x % Pow2(k), y % Pow2(k))
  {
    if k == 0 {
      assert Pow2(0) == 1;
    } else {
      OrMod(x / 2, y / 2, k - 1);
      hide Or, Pow2;
      OrModStep(x, y, k - 1);
    }
  }

  /** A disjunction with nothing in common is a sum. */
  lemma {:induction false} OrIsSum(a: nat, k: nat, b: nat)
    requires b < Pow2(k)
    ensures Or(a * Pow2(k), b) == a * Pow2(k) + b
  {
    if k == 0 {
      OrZero(a);
    } else {
      var p := Pow2(k - 1);
      assert a * Pow2(k) == 2 * (a * p);
      OrIsSum(a, k - 1, b / 2);
    }
  }

  lemma {:induction false} OrZero(a: nat)
    ensures Or(a, 0) == a
  {
    if a > 0 {
      OrZero(a / 2);
    }
  }

  lemma {:induction false} OrSym(x: nat, y: nat)
    ensures Or(x, y) == Or(y, x)
    decreases x + y
  {
    if x > 0 || y > 0 {
      OrSym(x / 2, y / 2);
    }
  }

  /** Only the low digits of a mask's partner matter. */
  lemma {:induction false} AndLow(x: nat, z: nat, k: nat)
    requires z < Pow2(k)
    ensures And(x, z) == And(x % Pow2(k), z)
  {
    if k > 0 {
      AndLow(x / 2, z / 2, k - 1);
      ModPow2Step(x, k - 1);
      AndStep(x / 2, x % 2, z);
      AndStep((x / 2) % Pow2(k - 1), x % 2, z);
    }
  }

  lemma AndStep(a: nat, bit: nat, z: nat)
    requires bit < 2
    ensures And(2 * a + bit, z) == 2 * And(a, z / 2) + (if bit == 1 && z % 2 == 1 then 1 else 0)
  {
    assert (2 * a + bit) / 2 == a;
  }

  lemma {:induction false} AndBound(x: nat, y: nat)
    ensures And(x, y) <= x && And(x, y) <= y
  {
    if x != 0 && y != 0 {
      AndBound(x / 2, y / 2);
    }
  }

  lemma {:induction false} XorBound(x: nat, y: nat, k: nat)
    requires x < Pow2(k) && y < Pow2(k)
    ensures Xor(x, y) < Pow2(k)
  {
    if k > 0 {
      XorBound(x / 2, y / 2, k - 1);
    }
  }
}
