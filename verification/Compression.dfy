/** `detail` of picosha2.h: the compression function computed in 64-bit words and masked late,
    proved to be the 32-bit one of FIPS 180-4. */
module Compression {
  import opened Words
  import F = Fips180
  import R = DigestRelation

  // ----- the bit functions of the source

  function Ch(x: word64, y: word64, z: word64): nat {
    Xor(And(x, y), And(Not64(x), z))
  }

  function Maj(x: word64, y: word64, z: word64): nat {
    Xor(Xor(And(x, y), And(x, z)), And(y, z))
  }

  function Rotr(x: word64, n: nat): nat
    requires n < 32
  {
    Mask32(Or(Shr(x, n), Shl64(x, 32 - n)))
  }

  function Bsig0(x: word64): nat {
    Xor(Xor(Rotr(x, 2), Rotr(x, 13)), Rotr(x, 22))
  }

  function Bsig1(x: word64): nat {
    Xor(Xor(Rotr(x, 6), Rotr(x, 11)), Rotr(x, 25))
  }

  function Ssig0(x: word64): nat {
    Xor(Xor(Rotr(x, 7), Rotr(x, 18)), Shr(x, 3))
  }

  function Ssig1(x: word64): nat {
    Xor(Xor(Rotr(x, 17), Rotr(x, 19)), Shr(x, 10))
  }

  // ----- each agrees with its 32-bit definition on 32-bit words

  /** `(x >> n) | (x << (32 - n))` in 64 bits, masked, is the 32-bit rotation. */
  lemma RotrIsRotation(x: uint32, n: nat)
    requires n < 32
    ensures Rotr(x, n) == F.ROTR(x, n)
  {
    hide Or, Pow2, Shr, Mask32;
    var p, r := Pow2(n), Pow2(32 - n);
    assert Pow2(32) == 0x1_0000_0000 && p * r == 0x1_0000_0000 by {
      Pow2Values();
      Pow2Add(n, 32 - n);
    }
    ShrIsDiv(x, n);
    F.RotationBound(x, n);
    RotationHalves(x, p, r);
    var hi, lo := Shl64(x, 32 - n), Shr(x, n);
    assert hi == x * r;
    assert lo % Pow2(32) == lo;
    calc {
      Rotr(x, n);
      { Mask32IsMod(Or(lo, hi)); }
      Or(lo, hi) % Pow2(32);
      { OrMod(lo, hi, 32); }
      Or(lo, (x % p) * r);
      { OrSym(lo, (x % p) * r); }
      Or((x % p) * r, lo);
      { OrIsSum(x % p, 32 - n, lo); }
      (x % p) * r + lo;
    }
  }

  lemma RotationHalves(x: uint32, p: nat, r: nat)
    requires p > 0 && r > 0 && p * r == 0x1_0000_0000
    ensures x * r < 0x1_0000_0000_0000_0000 && (x * r) % 0x1_0000_0000 == (x % p) * r
    ensures 0 <= x / p < 0x1_0000_0000
  {
    var q := x / p;
    assert x == p * q + x % p;
    assert x * r == (p * r) * q + (x % p) * r by {
      calc {
        x * r;
        (p * q + x % p) * r;
        (p * q) * r + (x % p) * r;
        { assert (p * q) * r == (p * r) * q; }
        (p * r) * q + (x % p) * r;
      }
    }
    F.SplitBound(x, p, r, 0x1_0000_0000);
    MulMonotone(r, 0, x % p);
    DivModUnique(x * r, 0x1_0000_0000, q, (x % p) * r);
    if r > 0x1_0000_0000 {
      MulMonotone(r, 1, p);
    }
    MulMonotone(x, r, 0x1_0000_0000);
  }

  /** The high half of `~x` never shows: it is masked by the 32-bit `z`. */
  lemma ChIsCh(x: uint32, y: uint32, z: uint32)
    ensures Ch(x, y, z) == F.Ch(x, y, z)
  {
    hide And, Xor;
    assert z < Pow2(32) && Pow2(32) == 0x1_0000_0000 by { Pow2Values(); }
    AndLow(Not64(x), z, 32);
    assert Not64(x) % 0x1_0000_0000 == F.Complement(x);
  }

  lemma MajIsMaj(x: uint32, y: uint32, z: uint32)
    ensures Maj(x, y, z) == F.Maj(x, y, z)
  {
    hide And, Xor;
  }

  lemma SigmasAgree(x: uint32)
    ensures Bsig0(x) == F.BigSigma0(x) && Bsig1(x) == F.BigSigma1(x)
    ensures Ssig0(x) == F.SmallSigma0(x) && Ssig1(x) == F.SmallSigma1(x)
  {
    hide Rotr, F.ROTR, Xor, Shr;
    RotrIsRotation(x, 2);
    RotrIsRotation(x, 13);
    RotrIsRotation(x, 22);
    RotrIsRotation(x, 6);
    RotrIsRotation(x, 11);
    RotrIsRotation(x, 25);
    RotrIsRotation(x, 7);
    RotrIsRotation(x, 18);
    RotrIsRotation(x, 17);
    RotrIsRotation(x, 19);
  }

  // ----- one round

  function Temp1(e: word64, f: word64, g: word64, h: word64, k: word64, w: word64): word64 {
    Add64(Add64(Add64(Add64(h, Bsig1(e)), Ch(e, f, g)), k), w)
  }

  function Temp2(a: word64, b: word64, c: word64): word64 {
    Add64(Bsig0(a), Maj(a, b, c))
  }

  /** The sums kept unmasked never reach 2^64. */
  lemma TempsDoNotWrap(v: F.HashValue, k: uint32, w: uint32)
    ensures Temp1(v.e, v.f, v.g, v.h, k, w) == v.h + F.BigSigma1(v.e) + F.Ch(v.e, v.f, v.g) + k + w
    ensures Temp2(v.a, v.b, v.c) == F.BigSigma0(v.a) + F.Maj(v.a, v.b, v.c)
    ensures v.d + Temp1(v.e, v.f, v.g, v.h, k, w) + Temp2(v.a, v.b, v.c) < 0x1_0000_0000_0000_0000
  {
    hide Bsig0, Bsig1, Ch, Maj, F.BigSigma0, F.BigSigma1, F.Ch, F.Maj, Add64;
    SigmasAgree(v.e);
    SigmasAgree(v.a);
    ChIsCh(v.e, v.f, v.g);
    MajIsMaj(v.a, v.b, v.c);
    SumOfFive(v.h, Bsig1(v.e), Ch(v.e, v.f, v.g), k, w);
    SumOfTwo(Bsig0(v.a), Maj(v.a, v.b, v.c));
  }

  /** Masking only at the end of the round yields the round of section 6.2.2 of FIPS 180-4. */
  lemma RoundAgrees(v: F.HashValue, k: uint32, w: uint32)
    ensures F.Round(v, k, w)
         == F.HashValue(Mask32(Add64(Temp1(v.e, v.f, v.g, v.h, k, w), Temp2(v.a, v.b, v.c))), v.a, v.b, v.c,
                        Mask32(Add64(v.d, Temp1(v.e, v.f, v.g, v.h, k, w))), v.e, v.f, v.g)
  {
    hide Temp1, Temp2, Mask32, F.BigSigma0, F.BigSigma1, F.Ch, F.Maj, Add64;
    TempsDoNotWrap(v, k, w);
    var t1, t2 := Temp1(v.e, v.f, v.g, v.h, k, w), Temp2(v.a, v.b, v.c);
    Mask32IsMod(Add64(t1, t2));
    Mask32IsMod(Add64(v.d, t1));
    SumsMod(v.d, t1, t2);
  }

  lemma SumOfTwo(a: uint32, b: uint32)
    ensures Add64(a, b) == a + b
  {
  }

  lemma SumOfFive(a: uint32, b: uint32, c: uint32, d: uint32, e: uint32)
    ensures Add64(Add64(Add64(a, b), c), d) == a + b + c + d
    ensures Add64(Add64(Add64(Add64(a, b), c), d), e) == a + b + c + d + e
  {
    assert Add64(a, b) == a + b;
    assert Add64(Add64(a, b), c) == a + b + c;
  }

  /** Masking late is masking early. */
  lemma SumsMod(d: uint32, t1: nat, t2: nat)
    requires t1 < 0x5_0000_0000 && t2 < 0x2_0000_0000
    ensures Add64(t1, t2) % 0x1_0000_0000 == (t1 % 0x1_0000_0000 + t2 % 0x1_0000_0000) % 0x1_0000_0000
    ensures Add64(d, t1) % 0x1_0000_0000 == (d + t1 % 0x1_0000_0000) % 0x1_0000_0000
  {
    assert Add64(t1, t2) == t1 + t2 && Add64(d, t1) == d + t1;
    hide Add64;
    ModSum(t1, t2);
    ModSum(t2, t1 % 0x1_0000_0000);
    ModSum(t1, d);
  }

  /** The schedule step, likewise. */
  lemma ScheduleAgrees(w2: uint32, w7: uint32, w15: uint32, w16: uint32)
    ensures Mask32(Add64(Add64(Add64(Ssig1(w2), w7), Ssig0(w15)), w16))
         == F.Sum32(F.SmallSigma1(w2) + w7 + F.SmallSigma0(w15) + w16)
  {
    hide Ssig0, Ssig1, Mask32, F.SmallSigma0, F.SmallSigma1, Add64;
    SigmasAgree(w2);
    SigmasAgree(w15);
    SumOfFive(Ssig1(w2), w7, Ssig0(w15), w16, 0);
    Mask32IsMod(Add64(Add64(Add64(Ssig1(w2), w7), Ssig0(w15)), w16));
  }

  /** Shifting four bytes into place and joining them is reading a big-endian word. */
  lemma WordAgrees(b0: byte, b1: byte, b2: byte, b3: byte)
    ensures Or(Or(Or(Shl64(b0, 24), Shl64(b1, 16)), Shl64(b2, 8)), b3) == F.FromBytes(b0, b1, b2, b3)
  {
    hide Or;
    assert Pow2(8) == 0x100 && Pow2(16) == 0x1_0000 && Pow2(24) == 0x100_0000 by { Pow2Values(); }
    hide Pow2;
    assert Shl64(b0, 24) == b0 * 0x100_0000 && Shl64(b1, 16) == b1 * 0x1_0000 && Shl64(b2, 8) == b2 * 0x100;
    OrIsSum(b0, 24, b1 * 0x1_0000);
    OrIsSum(b0 * 0x100 + b1, 16, b2 * 0x100);
    OrIsSum(b0 * 0x1_0000 + b1 * 0x100 + b2, 8, b3);
  }

  // ----- the block function

  /** The eight words of the array are those of `v`. */
  ghost predicate Holds(words: seq<nat>, v: F.HashValue) {
    words == [v.a, v.b, v.c, v.d, v.e, v.f, v.g, v.h]
  }

  /** Section 6.2.2 of FIPS 180-4 on the entries of an array: word `t` from those 2, 7, 15 and 16 places before. */
  ghost predicate Recurs(w: seq<nat>, t: nat)
    requires 16 <= t < |w|
  {
    && w[t - 2] < 0x1_0000_0000 && w[t - 15] < 0x1_0000_0000
    && w[t] == (F.SmallSigma1(w[t - 2]) + w[t - 7] + F.SmallSigma0(w[t - 15]) + w[t - 16]) % 0x1_0000_0000
  }

  lemma ScheduleRecurs(block: F.Block, w: seq<nat>)
    requires |w| == 64 && forall t :: 0 <= t < 64 ==> w[t] == F.Schedule(block, t)
    ensures forall t :: 0 <= t < 16 ==> w[t] == R.BigEndian(block, 4 * t)
    ensures forall t :: 16 <= t < 64 ==> Recurs(w, t)
  {
    hide F.Schedule, F.SmallSigma0, F.SmallSigma1, R.BigEndian;
    forall t | 0 <= t < 16
      ensures w[t] == R.BigEndian(block, 4 * t)
    {
      R.ScheduleStart(block, t);
    }
    forall t | 16 <= t < 64
      ensures Recurs(w, t)
    {
      R.ScheduleEquation(block, t);
    }
  }

  /** The first two loops of `hash256_block`: sixteen words from the bytes, the rest by recurrence. */
  method PrepareSchedule(block: F.Block) returns (w: array<word64>)
    ensures fresh(w) && w.Length == 64
    ensures forall t :: 0 <= t < 64 ==> w[t] == F.Schedule(block, t)
    ensures forall t :: 0 <= t < 16 ==> w[t] == R.BigEndian(block, 4 * t)
    ensures forall t :: 16 <= t < 64 ==> Recurs(w[..], t)
  {
    hide Or, Pow2, Shl64, Ssig0, Ssig1, Mask32, Add64, F.SmallSigma0, F.SmallSigma1, F.Sum32, F.FromBytes, Recurs,
         R.BigEndian;
    w := new word64[64];
    for i := 0 to 16
      invariant forall t :: 0 <= t < i ==> w[t] == F.Schedule(block, t)
    {
      WordAgrees(block[i * 4], block[i * 4 + 1], block[i * 4 + 2], block[i * 4 + 3]);
      assert F.BlockWord(block, i) == F.FromBytes(block[i * 4], block[i * 4 + 1], block[i * 4 + 2], block[i * 4 + 3]);
      w[i] := Or(Or(Or(Shl64(block[i * 4], 24), Shl64(block[i * 4 + 1], 16)), Shl64(block[i * 4 + 2], 8)),
                 block[i * 4 + 3]);
    }
    for i := 16 to 64
      invariant forall t :: 0 <= t < i ==> w[t] == F.Schedule(block, t)
    {
      ScheduleAgrees(w[i - 2], w[i - 7], w[i - 15], w[i - 16]);
      w[i] := Mask32(Add64(Add64(Add64(Ssig1(w[i - 2]), w[i - 7]), Ssig0(w[i - 15])), w[i - 16]));
    }
    ScheduleRecurs(block, w[..]);
  }

  /** The third loop: 64 rounds on the working variables. */
  method RunRounds(digest: array<word64>, w: array<word64>, block: F.Block, ghost v: F.HashValue)
      returns (a: word64, b: word64, c: word64, d: word64, e: word64, f: word64, g: word64, h: word64)
    requires digest.Length == 8 && Holds(digest[..], v)
    requires w.Length == 64 && forall t :: 0 <= t < 64 ==> w[t] == F.Schedule(block, t)
    ensures Holds([a, b, c, d, e, f, g, h], F.Rounds(v, block, F.ROUNDS))
    ensures R.RoundsReach(v, block, F.Rounds(v, block, F.ROUNDS))
  {
    hide Temp1, Temp2, Mask32, Add64, F.Round, F.Schedule, F.RoundConstant;
    a, b, c, d := digest[0], digest[1], digest[2], digest[3];
    e, f, g, h := digest[4], digest[5], digest[6], digest[7];
    for i := 0 to 64
      invariant Holds([a, b, c, d, e, f, g, h], F.Rounds(v, block, i))
    {
      ghost var now := F.Rounds(v, block, i);
      RoundAgrees(now, F.RoundConstant(i), F.Schedule(block, i));
      assert [a, b, c, d, e, f, g, h][0] == now.a;
      var temp1 := Temp1(e, f, g, h, F.RoundConstant(i), w[i]);
      var temp2 := Temp2(a, b, c);
      h, g, f := g, f, e;
      e := Mask32(Add64(d, temp1));
      d, c, b := c, b, a;
      a := Mask32(Add64(temp1, temp2));
    }
    R.RoundsReachIff(v, block, F.Rounds(v, block, F.ROUNDS));
  }

  lemma FeedForward(x: uint32, y: uint32)
    ensures Mask32(Add64(x, y)) == F.Sum32(y + x)
  {
    SumOfTwo(x, y);
    Mask32IsMod(x + y);
  }

  /** The working variables added to the digest. */
  method AddToDigest(digest: array<word64>, a: word64, b: word64, c: word64, d: word64,
                     e: word64, f: word64, g: word64, h: word64)
    requires digest.Length == 8
    modifies digest
    ensures var was := old(digest[..]);
      digest[..] == [Add64(was[0], a), Add64(was[1], b), Add64(was[2], c), Add64(was[3], d),
                     Add64(was[4], e), Add64(was[5], f), Add64(was[6], g), Add64(was[7], h)]
  {
    hide Add64;
    digest[0], digest[1], digest[2], digest[3] :=
      Add64(digest[0], a), Add64(digest[1], b), Add64(digest[2], c), Add64(digest[3], d);
    digest[4], digest[5], digest[6], digest[7] :=
      Add64(digest[4], e), Add64(digest[5], f), Add64(digest[6], g), Add64(digest[7], h);
  }

  /** The last loop: every word masked to 32 bits. */
  method MaskDigest(digest: array<word64>)
    requires digest.Length == 8
    modifies digest
    ensures forall j :: 0 <= j < 8 ==> digest[j] == Mask32(old(digest[j]))
  {
    hide Mask32;
    for i := 0 to 8
      invariant forall j :: 0 <= j < i ==> digest[j] == Mask32(old(digest[j]))
      invariant forall j :: i <= j < 8 ==> digest[j] == old(digest[j])
    {
      digest[i] := Mask32(digest[i]);
    }
  }

  /** `hash256_block`: one block compressed into the eight words of `digest`. */
  method Hash256Block(digest: array<word64>, block: F.Block, ghost v: F.HashValue)
    requires digest.Length == 8 && Holds(digest[..], v)
    modifies digest
    ensures Holds(digest[..], F.Compress(v, block))
    ensures R.IsCompression(v, block, F.Compress(v, block))
  {
    hide F.Rounds, Mask32, Add64, F.Sum32, R.IsCompression, R.RoundsReach, Recurs, R.BigEndian;
    R.CompressionIff(v, block, F.Compress(v, block));
    var w := PrepareSchedule(block);
    var a, b, c, d, e, f, g, h := RunRounds(digest, w, block, v);
    ghost var r := F.Rounds(v, block, F.ROUNDS);
    assert a == [a, b, c, d, e, f, g, h][0] && e == [a, b, c, d, e, f, g, h][4];
    AddToDigest(digest, a, b, c, d, e, f, g, h);
    MaskDigest(digest);
    FeedForward(v.a, r.a);
    FeedForward(v.b, r.b);
    FeedForward(v.c, r.c);
    FeedForward(v.d, r.d);
    FeedForward(v.e, r.e);
    FeedForward(v.f, r.f);
    FeedForward(v.g, r.g);
    FeedForward(v.h, r.h);
  }
}
