/** The 64-bit message length that picosha2.h keeps in four 16-bit limbs: the carry chain of
    `add_to_data_length` and the shift and big-endian output of `write_data_bit_length`. */
module LengthLimbs {
  import opened Words
  import F = Fips180

  /** Four limbs, least significant first, each below 2^16. */
  ghost predicate Normal(d: seq<nat>) {
    |d| == 4 && d[0] < 0x1_0000 && d[1] < 0x1_0000 && d[2] < 0x1_0000 && d[3] < 0x1_0000
  }

  ghost function LimbValue(d: seq<nat>): nat
    requires |d| == 4
  {
    d[0] + 0x1_0000 * d[1] + 0x1_0000_0000 * d[2] + 0x1_0000_0000_0000 * d[3]
  }

  /** `c` carried into limb `i`. */
  ghost function Weighted(c: nat, i: nat): nat {
    if i == 0 then c else 0x1_0000 * Weighted(c, i - 1)
  }

  /** Normal limbs are determined by their value. */
  lemma LimbsUnique(d: seq<nat>, d': seq<nat>)
    requires Normal(d) && Normal(d') && LimbValue(d) == LimbValue(d')
    ensures d == d'
  {
    var r, r' := d[1] + 0x1_0000 * d[2] + 0x1_0000_0000 * d[3], d'[1] + 0x1_0000 * d'[2] + 0x1_0000_0000 * d'[3];
    assert d[0] + 0x1_0000 * r == d'[0] + 0x1_0000 * r';
    var s, s' := d[2] + 0x1_0000 * d[3], d'[2] + 0x1_0000 * d'[3];
    assert d[1] + 0x1_0000 * s == d'[1] + 0x1_0000 * s';
  }

  lemma MaskAndShift16(x: nat)
    ensures And(x, 65535) == x % 0x1_0000 && Shr(x, 16) == x / 0x1_0000
  {
    Pow2Values();
    AndMask(x, 16);
    ShrIsDiv(x, 16);
  }

  /** One step of the carry chain: what leaves limb `i` enters limb `i + 1`. */
  lemma CarryStep(d: seq<nat>, i: nat, x: nat, e: seq<nat>)
    requires |d| == 4 && i < 4 && e == d[i := x % 0x1_0000]
    ensures LimbValue(e) + Weighted(x / 0x1_0000, i + 1) == LimbValue(d[i := x])
  {
    assert x == 0x1_0000 * (x / 0x1_0000) + x % 0x1_0000;
    CarryIn(d, i, x);
    CarryIn(d, i, x % 0x1_0000);
    WeightedCases(x);
    WeightedCases(x % 0x1_0000);
    WeightedCases(x / 0x1_0000);
    WeightedCases(d[i]);
  }

  lemma WeightedCases(c: nat)
    ensures Weighted(c, 0) == c && Weighted(c, 1) == 0x1_0000 * c && Weighted(c, 2) == 0x1_0000_0000 * c
    ensures Weighted(c, 3) == 0x1_0000_0000_0000 * c && Weighted(c, 4) == 0x1_0000_0000_0000_0000 * c
  {
    assert Weighted(c, 1) == 0x1_0000 * Weighted(c, 0);
    assert Weighted(c, 2) == 0x1_0000 * Weighted(c, 1);
    assert Weighted(c, 3) == 0x1_0000 * Weighted(c, 2);
    assert Weighted(c, 4) == 0x1_0000 * Weighted(c, 3);
  }

  lemma CarryIn(d: seq<nat>, i: nat, x: nat)
    requires |d| == 4 && i < 4
    ensures LimbValue(d[i := x]) + Weighted(d[i], i) == LimbValue(d) + Weighted(x, i)
  {
    WeightedCases(x);
    WeightedCases(d[i]);
    hide Weighted;
    if i == 0 {
    } else if i == 1 {
    } else if i == 2 {
    } else {
    }
  }

  /** `add_to_data_length`. Normal limbs stay normal, and their value grows by `n` modulo 2^64: for every `n`,
      since the wrap of the first addition loses exactly a multiple of 2^64. */
  method AddToDataLength(digits: array<word64>, n: word64)
    requires digits.Length == 4 && Normal(digits[..])
    modifies digits
    ensures Normal(digits[..])
    ensures LimbValue(digits[..]) == (old(LimbValue(digits[..])) + n) % 0x1_0000_0000_0000_0000
  {
    hide LimbValue, Weighted, And, Shr;
    ghost var was := digits[..];
    ghost var total := LimbValue(was) + n;
    var carry: word64 := 0;
    digits[0] := Add64(digits[0], n);
    CarryIn(was, 0, digits[0]);
    WeightedCases(digits[0]);
    WeightedCases(was[0]);
    WeightedCases(0);
    assert digits[..] == was[0 := digits[0]];
    for i := 0 to 4
      invariant carry < 0x1_0000_0000_0000 && (i == 0 ==> carry == 0)
      invariant forall k :: 0 <= k < 4 && k != i ==> digits[k] < 0x1_0000
      invariant 0 < i < 4 ==> digits[i] < 0x1_0000
      invariant (LimbValue(digits[..]) + Weighted(carry, i)) % 0x1_0000_0000_0000_0000
             == total % 0x1_0000_0000_0000_0000
    {
      ghost var d := digits[..];
      var x := Add64(digits[i], carry);
      assert x == d[i] + carry;
      digits[i] := x;
      assert digits[..] == d[i := x];
      CarryIn(d, i, x);
      WeightedSum(d[i], carry, i);
      if digits[i] >= 65536 {
        MaskAndShift16(x);
        carry := Shr(digits[i], 16);
        digits[i] := And(digits[i], 65535);
        CarryStep(d, i, x, digits[..]);
      } else {
        WeightedZero(i);
        carry := 0;
        break;
      }
    }
    WeightedCases(carry);
    Unwrap(digits[..], carry, total);
  }

  lemma {:induction false} WeightedSum(a: nat, b: nat, i: nat)
    ensures Weighted(a + b, i) == Weighted(a, i) + Weighted(b, i)
  {
    if i > 0 {
      WeightedSum(a, b, i - 1);
    }
  }

  lemma {:induction false} WeightedZero(i: nat)
    ensures Weighted(0, i) == 0
  {
    if i > 0 {
      WeightedZero(i - 1);
    }
  }

  lemma Unwrap(d: seq<nat>, carry: nat, total: nat)
    requires Normal(d)
    requires (LimbValue(d) + 0x1_0000_0000_0000_0000 * carry) % 0x1_0000_0000_0000_0000
          == total % 0x1_0000_0000_0000_0000
    ensures LimbValue(d) == total % 0x1_0000_0000_0000_0000
  {
  }

  // ----- output

  /** The limb of `8 * value`: three bits in from the limb below, three bits out to the limb above. */
  lemma ShiftLimb(d: nat, carry: nat)
    requires d < 0x1_0000 && carry < 8
    ensures Or(Shl64(d, 3), carry) == 8 * d + carry
    ensures And(Or(Shl64(d, 3), carry), 65535) == (8 * d + carry) % 0x1_0000
    ensures And(Shr(d, 13), 65535) == d / 0x2000 < 8
  {
    hide And, Or, Shr;
    assert Pow2(3) == 8 && Pow2(13) == 0x2000 by { Pow2Values(); }
    hide Pow2;
    OrIsSum(d, 3, carry);
    MaskAndShift16(8 * d + carry);
    ShrIsDiv(d, 13);
    MaskAndShift16(d / 0x2000);
  }

  /** The carry that enters limb `i` when the limbs `d` are multiplied by eight. */
  ghost function ShiftCarry(d: seq<nat>, i: nat): nat
    requires |d| == 4 && i <= 4
  {
    if i == 0 then 0 else d[i - 1] / 0x2000
  }

  ghost predicate Shifted(d: seq<nat>, b: seq<nat>) {
    |d| == |b| == 4 && forall i :: 0 <= i < 4 ==> b[i] == (8 * d[i] + ShiftCarry(d, i)) % 0x1_0000
  }

  lemma ShiftedValue(d: seq<nat>, b: seq<nat>)
    requires Normal(d) && Shifted(d, b)
    ensures Normal(b) && LimbValue(b) == F.BitLength(LimbValue(d))
  {
    var c0, c1, c2, c3 := d[0] / 0x2000, d[1] / 0x2000, d[2] / 0x2000, d[3] / 0x2000;
    LimbOut(d[0], 0, b[0]);
    LimbOut(d[1], c0, b[1]);
    LimbOut(d[2], c1, b[2]);
    LimbOut(d[3], c2, b[3]);
    assert 8 * LimbValue(d) == LimbValue(b) + 0x1_0000_0000_0000_0000 * c3;
  }

  lemma LimbOut(d: nat, c: nat, b: nat)
    requires d < 0x1_0000 && c < 8 && b == (8 * d + c) % 0x1_0000
    ensures 8 * d + c == 0x1_0000 * (d / 0x2000) + b && d / 0x2000 < 8 && b < 0x1_0000
  {
    DivModUnique(8 * d + c, 0x1_0000, d / 0x2000, 8 * (d % 0x2000) + c);
  }

  ghost function LimbBytes(b: seq<nat>): seq<byte>
    requires Normal(b)
  {
    [F.LowByte(b[3] / 0x100), F.LowByte(b[3]), F.LowByte(b[2] / 0x100), F.LowByte(b[2]),
     F.LowByte(b[1] / 0x100), F.LowByte(b[1]), F.LowByte(b[0] / 0x100), F.LowByte(b[0])]
  }

  lemma LimbBytesAreBigEndian(b: seq<nat>)
    requires Normal(b)
    ensures LimbValue(b) < 0x1_0000_0000_0000_0000 && LimbBytes(b) == F.BigEndian64(LimbValue(b))
  {
    var hi, lo := 0x1_0000 * b[3] + b[2], 0x1_0000 * b[1] + b[0];
    DivModUnique(LimbValue(b), 0x1_0000_0000, hi, lo);
    PairBytes(b[3], b[2]);
    PairBytes(b[1], b[0]);
  }

  lemma PairBytes(hi: nat, lo: nat)
    requires hi < 0x1_0000 && lo < 0x1_0000
    ensures F.WordBytes(0x1_0000 * hi + lo)
         == [F.LowByte(hi / 0x100), F.LowByte(hi), F.LowByte(lo / 0x100), F.LowByte(lo)]
  {
    var w := 0x1_0000 * hi + lo;
    DivModUnique(w, 0x1_0000, hi, lo);
    DivModUnique(w, 0x100_0000, hi / 0x100, 0x1_0000 * (hi % 0x100) + lo);
    DivModUnique(w, 0x100, 0x100 * hi + lo / 0x100, lo % 0x100);
    assert F.LowByte(w / 0x100) == F.LowByte(lo / 0x100) by {
      DivModUnique(0x100 * hi + lo / 0x100, 0x100, hi, lo / 0x100);
    }
  }

  /** The first loop of `write_data_bit_length`: the limbs shifted left by three. */
  method ShiftLimbs(digits: array<word64>) returns (bits: array<word64>)
    requires digits.Length == 4 && Normal(digits[..])
    ensures fresh(bits) && bits.Length == 4 && Shifted(digits[..], bits[..])
  {
    hide And, Or, Shr, Shl64;
    ghost var d := digits[..];
    bits := new word64[4](i requires 0 <= i < 4 reads digits => digits[i]);
    var carry: word64 := 0;
    for i := 0 to 4
      invariant digits[..] == d
      invariant carry == ShiftCarry(d, i) && carry < 8
      invariant forall k :: 0 <= k < i ==> bits[k] == (8 * d[k] + ShiftCarry(d, k)) % 0x1_0000
      invariant forall k :: i <= k < 4 ==> bits[k] == d[k]
    {
      ShiftLimb(d[i], carry);
      var before := bits[i];
      bits[i] := Shl64(bits[i], 3);
      bits[i] := Or(bits[i], carry);
      bits[i] := And(bits[i], 65535);
      carry := And(Shr(before, 16 - 3), 65535);
    }
  }

  /** `write_data_bit_length`: eight times the byte count, modulo 2^64, as eight big-endian bytes at `begin`. */
  method WriteDataBitLength(digits: array<word64>, out: array<byte>, begin: nat)
    requires digits.Length == 4 && Normal(digits[..]) && begin + 8 <= out.Length
    modifies out
    ensures out[..]
         == old(out[..begin]) + F.BigEndian64(F.BitLength(old(LimbValue(digits[..])))) + old(out[begin + 8..])
  {
    hide Shr, LimbValue, F.BigEndian64, F.BitLength, F.LowByte;
    var bits := ShiftLimbs(digits);
    ghost var b := bits[..];
    ShiftedValue(digits[..], b);
    LimbBytesAreBigEndian(b);
    var next := begin;
    var i := 3;
    while i >= 0
      invariant -1 <= i <= 3 && next == begin + 2 * (3 - i)
      invariant bits[..] == b
      invariant forall k :: 0 <= k < out.Length && !(begin <= k < next) ==> out[k] == old(out[k])
      invariant forall k :: begin <= k < next ==> out[k] == LimbBytes(b)[k - begin]
    {
      ShrByte(bits[i]);
      out[next] := F.LowByte(Shr(bits[i], 8));
      out[next + 1] := F.LowByte(bits[i]);
      next := next + 2;
      i := i - 1;
    }
    assert out[begin..begin + 8] == LimbBytes(b);
    assert out[..] == out[..begin] + out[begin..begin + 8] + out[begin + 8..];
  }

  lemma ShrByte(x: nat)
    ensures Shr(x, 8) == x / 0x100
  {
    Pow2Values();
    ShrIsDiv(x, 8);
  }
}
