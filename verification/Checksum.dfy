/** `CalculateChecksum` of m_v8_shared_cache.cc: `checksum * 33 + byte` in wrapping 32-bit arithmetic, and
    which corruptions it detects. */
module Checksums {
  import opened Words
  import opened Valuation

  /** `((checksum << 5) + checksum) + byte`. */
  function Step(checksum: uint32, b: byte): uint32 {
    Add32(Add32(Shl32(checksum, 5), checksum), b)
  }

  function Checksum(data: seq<byte>): uint32 {
    if data == [] then 0 else Step(Checksum(data[..|data| - 1]), data[|data| - 1])
  }

  lemma ChecksumSnoc(s: seq<byte>, x: byte)
    ensures Checksum(s + [x]) == Step(Checksum(s), x)
  {
    assert (s + [x])[..|s|] == s;
  }

  method CalculateChecksum(data: array<byte>, start: nat, length: nat) returns (checksum: uint32)
    requires start + length <= data.Length
    ensures checksum == Checksum(data[start..start + length])
  {
    checksum := 0;
    for i := 0 to length
      invariant checksum == Checksum(data[start..start + i])
    {
      ChecksumSnoc(data[start..start + i], data[start + i]);
      assert data[start..start + i + 1] == data[start..start + i] + [data[start + i]];
      checksum := Step(checksum, data[start + i]);
    }
  }

  // ----- closed form

  /** The sum of data[i] * 33^(n - 1 - i), unwrapped. */
  ghost function Polynomial(data: seq<byte>): nat {
    if data == [] then 0 else data[0] * Pow(33, |data| - 1) + Polynomial(data[1..])
  }

  lemma StepMod(c: uint32, b: byte)
    ensures Step(c, b) == (33 * c + b) % 0x1_0000_0000
  {
    ShiftFive(c);
    hide Shl32;
    ModSum(32 * c, c);
    ModSum(33 * c, b);
  }

  lemma ShiftFive(c: uint32)
    ensures Shl32(c, 5) == (32 * c) % 0x1_0000_0000
  {
    Pow2Values();
    hide Pow2;
  }

  lemma {:induction false} PolynomialAppend(a: seq<byte>, b: seq<byte>)
    ensures Polynomial(a + b) == Polynomial(a) * Pow(33, |b|) + Polynomial(b)
  {
    if a == [] {
      assert a + b == b;
    } else {
      PolynomialAppend(a[1..], b);
      assert (a + b)[1..] == a[1..] + b;
      PowAdd(33, |a| - 1, |b|);
      Distribute(a[0], Pow(33, |a| - 1), Polynomial(a[1..]), Pow(33, |b|));
    }
  }

  lemma Distribute(x: int, p: int, q: int, r: int)
    ensures (x * p + q) * r == x * (p * r) + q * r
  {
  }

  lemma Empty()
    ensures Checksum([]) == 0 && Polynomial([]) == 0
  {
  }

  lemma PolynomialCons(x: byte, s: seq<byte>)
    ensures Polynomial([x] + s) == x * Pow(33, |s|) + Polynomial(s)
  {
    hide Pow;
    var t := [x] + s;
    assert t[1..] == s && t[0] == x && |t| - 1 == |s|;
  }

  lemma PolynomialSnoc(s: seq<byte>, x: byte)
    ensures Polynomial(s + [x]) == 33 * Polynomial(s) + x
  {
    PolynomialAppend(s, [x]);
    assert Pow(33, 1) == 33 && Pow(33, 0) == 1;
    assert Polynomial([x]) == x;
  }

  /** The checksum is the polynomial in 33, modulo 2^32. */
  lemma {:induction false} ChecksumIsPolynomial(data: seq<byte>)
    ensures Checksum(data) == Polynomial(data) % 0x1_0000_0000
  {
    hide Checksum, Polynomial, Step, Pow;
    if data == [] {
      Empty();
    } else {
      var n := |data| - 1;
      var s, x := data[..n], data[n];
      assert data == s + [x];
      ChecksumIsPolynomial(s);
      ChecksumSnoc(s, x);
      PolynomialSnoc(s, x);
      StepMod(Checksum(s), x);
      ScaleMod(Polynomial(s), 33, x);
    }
  }

  lemma ScaleMod(x: nat, k: nat, b: nat)
    ensures ((x % 0x1_0000_0000) * k + b) % 0x1_0000_0000 == (x * k + b) % 0x1_0000_0000
  {
    var q, r := x / 0x1_0000_0000, x % 0x1_0000_0000;
    var y := r * k + b;
    assert x * k == 0x1_0000_0000 * (q * k) + r * k;
    DivModUnique(x * k + b, 0x1_0000_0000, q * k + y / 0x1_0000_0000, y % 0x1_0000_0000);
  }

  /** The checksum of a concatenation, from the checksums of the parts. */
  lemma ChecksumAppend(a: seq<byte>, b: seq<byte>)
    ensures Checksum(a + b) == (Checksum(a) * Pow(33, |b|) + Checksum(b)) % 0x1_0000_0000
  {
    ChecksumIsPolynomial(a);
    ChecksumIsPolynomial(b);
    ChecksumIsPolynomial(a + b);
    PolynomialAppend(a, b);
    hide Checksum, Polynomial;
    ScaleMod(Polynomial(a), Pow(33, |b|), Polynomial(b));
    ScaleMod(Polynomial(b), 1, Checksum(a) * Pow(33, |b|));
  }

  // ----- detection of a changed byte

  /** 33 has the inverse 1041204193 modulo 2^32, so a step loses nothing. */
  lemma StepInjective(c: uint32, c': uint32, b: byte, b': byte)
    requires Step(c, b) == Step(c', b')
    ensures b == b' ==> c == c'
    ensures c == c' ==> b == b'
  {
    StepMod(c, b);
    StepMod(c', b');
    hide Step;
    if b == b' {
      var q := (33 * c + b) / 0x1_0000_0000 - (33 * c' + b) / 0x1_0000_0000;
      assert 33 * (c - c') == 0x1_0000_0000 * q;
      assert c - c' == 0x1_0000_0000 * (1041204193 * q - 8 * (c - c'));
    }
  }

  /** A common suffix neither hides nor creates a difference. */
  lemma {:induction false} CommonSuffix(a: seq<byte>, b: seq<byte>, s: seq<byte>)
    ensures Checksum(a + s) == Checksum(b + s) <==> Checksum(a) == Checksum(b)
    decreases |s|
  {
    if s == [] {
      assert a + s == a && b + s == b;
    } else {
      var t, x := s[..|s| - 1], s[|s| - 1];
      assert (a + s)[..|a + s| - 1] == a + t && (b + s)[..|b + s| - 1] == b + t;
      CommonSuffix(a, b, t);
      if Checksum(a + s) == Checksum(b + s) {
        StepInjective(Checksum(a + t), Checksum(b + t), x, x);
      }
    }
  }

  /** Changing exactly one byte always changes the checksum, whatever the length and the place. */
  lemma OneByteDetected(pre: seq<byte>, x: byte, y: byte, post: seq<byte>)
    ensures Checksum(pre + [x] + post) == Checksum(pre + [y] + post) <==> x == y
  {
    CommonSuffix(pre + [x], pre + [y], post);
    assert (pre + [x])[..|pre|] == pre && (pre + [y])[..|pre|] == pre;
    if Checksum(pre + [x]) == Checksum(pre + [y]) {
      StepInjective(Checksum(pre), Checksum(pre), x, y);
    }
  }

  // ----- detection of swapped bytes

  ghost function Distance(x: byte, y: byte): nat {
    if x < y then y - x else x - y
  }

  /** The sequence with bytes `x` and `y` at distance |mid| + 1. */
  ghost function Pair(pre: seq<byte>, x: byte, mid: seq<byte>, y: byte, post: seq<byte>): seq<byte> {
    pre + ([x] + mid + [y]) + post
  }

  lemma PairPolynomial(x: byte, mid: seq<byte>, y: byte)
    ensures Polynomial([x] + mid + [y]) == x * Pow(33, |mid| + 1) + 33 * Polynomial(mid) + y
  {
    hide Polynomial, Pow;
    assert [x] + mid + [y] == [x] + (mid + [y]);
    PolynomialCons(x, mid + [y]);
    PolynomialSnoc(mid, y);
  }

  /** A common prefix of equally long sequences neither hides nor creates a difference. */
  lemma CommonPrefix(pre: seq<byte>, a: seq<byte>, b: seq<byte>)
    requires |a| == |b|
    ensures Checksum(pre + a) == Checksum(pre + b) <==> Checksum(a) == Checksum(b)
  {
    ChecksumAppend(pre, a);
    ChecksumAppend(pre, b);
    hide Checksum, Pow;
    ShiftedMod(Checksum(pre) * Pow(33, |a|), Checksum(a), Checksum(b));
  }

  lemma ShiftedMod(s: nat, x: uint32, y: uint32)
    ensures (s + x) % 0x1_0000_0000 == (s + y) % 0x1_0000_0000 <==> x == y
  {
    var d := (s + x) / 0x1_0000_0000 - (s + y) / 0x1_0000_0000;
    if (s + x) % 0x1_0000_0000 == (s + y) % 0x1_0000_0000 {
      assert x - y == 0x1_0000_0000 * d;
    }
  }

  /** Two remainders agree exactly when the difference is a multiple. */
  lemma SameRemainder(a: nat, b: nat, d: nat)
    requires a == b + d
    ensures a % 0x1_0000_0000 == b % 0x1_0000_0000 <==> d % 0x1_0000_0000 == 0
  {
    var q := a / 0x1_0000_0000 - b / 0x1_0000_0000;
    if a % 0x1_0000_0000 == b % 0x1_0000_0000 {
      assert d == 0x1_0000_0000 * q;
    }
  }

  /** Exactly which swaps go unnoticed: those of equal bytes, and those whose distance in value and in place
      together supply 27 factors of two. */
  lemma SwapUndetectedIff(pre: seq<byte>, x: byte, mid: seq<byte>, y: byte, post: seq<byte>)
    ensures Checksum(Pair(pre, x, mid, y, post)) == Checksum(Pair(pre, y, mid, x, post))
       <==> x == y || V2(Distance(x, y)) + V2(|mid| + 1) >= 27
  {
    var a, b := [x] + mid + [y], [y] + mid + [x];
    CommonSuffix(pre + a, pre + b, post);
    CommonPrefix(pre, a, b);
    if x < y {
      OrderedSwap(y, mid, x);
    } else if y < x {
      OrderedSwap(x, mid, y);
    }
  }

  lemma OrderedSwap(x: byte, mid: seq<byte>, y: byte)
    requires y < x
    ensures Checksum([x] + mid + [y]) == Checksum([y] + mid + [x]) <==> V2(x - y) + V2(|mid| + 1) >= 27
  {
    hide Checksum, Polynomial, Pow, V2;
    var a, b, k := [x] + mid + [y], [y] + mid + [x], |mid| + 1;
    ChecksumIsPolynomial(a);
    ChecksumIsPolynomial(b);
    PairPolynomial(x, mid, y);
    PairPolynomial(y, mid, x);
    V2Pow33(k);
    var p := Pow(33, k);
    var d := (x - y) * (p - 1);
    SwapDifference(x, y, p);
    V2Product(x - y, p - 1);
    SameRemainder(Polynomial(a), Polynomial(b), d);
    DivisibleByWord(d);
  }

  lemma DivisibleByWord(d: nat)
    requires d > 0
    ensures d % 0x1_0000_0000 == 0 <==> V2(d) >= 32
  {
    hide V2;
    Pow2Values();
    DividesIffV2(d, 32);
  }

  lemma SwapDifference(x: nat, y: nat, p: nat)
    ensures x * p + y - (y * p + x) == (x - y) * (p - 1)
  {
  }

  /** Any swap of two unequal bytes fewer than 2^20 positions apart is detected. */
  lemma NearSwapDetected(pre: seq<byte>, x: byte, mid: seq<byte>, y: byte, post: seq<byte>)
    requires x != y && |mid| + 1 < 0x10_0000
    ensures Checksum(Pair(pre, x, mid, y, post)) != Checksum(Pair(pre, y, mid, x, post))
  {
    SwapUndetectedIff(pre, x, mid, y, post);
    assert Pow2(8) == 0x100;
    V2Bound(Distance(x, y), 8);
    Pow2Add(10, 10);
    assert Pow2(10) == 1024;
    V2Bound(|mid| + 1, 20);
  }

  /** The bound is tight: at distance 2^20, bytes that differ by 128 can be exchanged unnoticed. */
  lemma FarSwapUndetected(pre: seq<byte>, mid: seq<byte>, post: seq<byte>)
    requires |mid| + 1 == 0x10_0000
    ensures Checksum(Pair(pre, 128, mid, 0, post)) == Checksum(Pair(pre, 0, mid, 128, post))
  {
    SwapUndetectedIff(pre, 128, mid, 0, post);
    assert Pow2(7) == 128 && Pow2(10) == 1024;
    DividesIffV2(128, 7);
    Pow2Add(10, 10);
    DividesIffV2(0x10_0000, 20);
  }
}
