/** SHA-256 as a relation between a message and its digest: padding, message schedules, rounds and hash values are
    sequences that satisfy the equations of FIPS 180-4, with every index and every width a number. `DigestIff` says that
    this relation is the function of `Fips180`. */
module DigestRelation {
  import opened Words
  import F = Fips180

  /** The big-endian number in four bytes. */
  function BigEndian(b: seq<byte>, at: nat): nat
    requires at + 4 <= |b|
  {
    b[at] as nat * 0x100_0000 + b[at + 1] as nat * 0x1_0000 + b[at + 2] as nat * 0x100 + b[at + 3]
  }

  // ----- the message schedule

  ghost predicate ScheduleStep(w: seq<uint32>, t: nat)
    requires |w| == 64 && 16 <= t < 64
  {
    w[t] == (F.SmallSigma1(w[t - 2]) + w[t - 7] + F.SmallSigma0(w[t - 15]) + w[t - 16]) % 0x1_0000_0000
  }

  ghost predicate IsSchedule(block: F.Block, w: seq<uint32>) {
    && |w| == 64
    && (forall t :: 0 <= t < 16 ==> w[t] == BigEndian(block, 4 * t))
    && (forall t :: 16 <= t < 64 ==> ScheduleStep(w, t))
  }

  lemma {:induction false} ScheduleUnique(block: F.Block, w: seq<uint32>, t: nat)
    requires IsSchedule(block, w) && t < 64
    ensures w[t] == F.Schedule(block, t)
    decreases t
  {
    hide F.SmallSigma0, F.SmallSigma1;
    if t >= 16 {
      assert ScheduleStep(w, t);
      ScheduleUnique(block, w, t - 2);
      ScheduleUnique(block, w, t - 7);
      ScheduleUnique(block, w, t - 15);
      ScheduleUnique(block, w, t - 16);
    }
  }

  lemma ScheduleEquation(block: F.Block, t: nat)
    requires 16 <= t < 64
    ensures F.Schedule(block, t)
         == (F.SmallSigma1(F.Schedule(block, t - 2)) + F.Schedule(block, t - 7)
             + F.SmallSigma0(F.Schedule(block, t - 15)) + F.Schedule(block, t - 16)) % 0x1_0000_0000
  {
    hide F.SmallSigma0, F.SmallSigma1;
  }

  lemma ScheduleStart(block: F.Block, t: nat)
    requires t < 16
    ensures F.Schedule(block, t) == BigEndian(block, 4 * t)
  {
  }

  lemma ScheduleIs(block: F.Block, w: seq<uint32>)
    requires |w| == 64 && forall t :: 0 <= t < 64 ==> w[t] == F.Schedule(block, t)
    ensures IsSchedule(block, w)
  {
    hide F.Schedule, F.SmallSigma0, F.SmallSigma1, BigEndian;
    forall t | 0 <= t < 16
      ensures w[t] == BigEndian(block, 4 * t)
    {
      ScheduleStart(block, t);
    }
    forall t | 16 <= t < 64
      ensures ScheduleStep(w, t)
    {
      ScheduleEquation(block, t);
    }
  }

  // ----- the rounds

  /** Round `t`: of the working variables only a and e are computed, the others are earlier values of these. */
  ghost predicate RoundStep(w: seq<uint32>, a: seq<uint32>, e: seq<uint32>, t: nat)
    requires |w| == 64 && |a| == |e| == 68 && t < 64
  {
    var t1 := e[t] + F.BigSigma1(e[t + 3]) + F.Ch(e[t + 3], e[t + 2], e[t + 1]) + F.RoundConstant(t) + w[t];
    && e[t + 4] == (a[t] + t1) % 0x1_0000_0000
    && a[t + 4] == (t1 + F.BigSigma0(a[t + 3]) + F.Maj(a[t + 3], a[t + 2], a[t + 1])) % 0x1_0000_0000
  }

  ghost predicate AreRounds(v: F.HashValue, w: seq<uint32>, a: seq<uint32>, e: seq<uint32>) {
    && |w| == 64 && |a| == |e| == 68
    && a[0] == v.d && a[1] == v.c && a[2] == v.b && a[3] == v.a
    && e[0] == v.h && e[1] == v.g && e[2] == v.f && e[3] == v.e
    && (forall t :: 0 <= t < 64 ==> RoundStep(w, a, e, t))
  }

  /** The sums of a round, each reduced once. */
  lemma RoundEquations(v: F.HashValue, k: uint32, w: uint32)
    ensures var t1 := v.h + F.BigSigma1(v.e) + F.Ch(v.e, v.f, v.g) + k + w;
      var u := F.Round(v, k, w);
      && u.a == (t1 + F.BigSigma0(v.a) + F.Maj(v.a, v.b, v.c)) % 0x1_0000_0000
      && u.e == (v.d + t1) % 0x1_0000_0000
      && u.b == v.a && u.c == v.b && u.d == v.c && u.f == v.e && u.g == v.f && u.h == v.g
  {
    hide F.BigSigma0, F.BigSigma1, F.Ch, F.Maj;
    var t1 := v.h + F.BigSigma1(v.e) + F.Ch(v.e, v.f, v.g) + k + w;
    var t2 := F.BigSigma0(v.a) + F.Maj(v.a, v.b, v.c);
    ModSum(t1, t2 % 0x1_0000_0000);
    ModSum(t2, t1);
    ModSum(t1, v.d);
  }

  ghost function StateAt(a: seq<uint32>, e: seq<uint32>, t: nat): F.HashValue
    requires |a| == |e| == 68 && t <= 64
  {
    F.HashValue(a[t + 3], a[t + 2], a[t + 1], a[t], e[t + 3], e[t + 2], e[t + 1], e[t])
  }

  /** Any sequences that satisfy the equations run through the working variables. */
  lemma {:induction false} RoundsFollow(v: F.HashValue, block: F.Block, w: seq<uint32>, a: seq<uint32>, e: seq<uint32>,
                                        t: nat)
    requires IsSchedule(block, w) && AreRounds(v, w, a, e) && t <= 64
    ensures F.Rounds(v, block, t) == StateAt(a, e, t)
    decreases t
  {
    hide F.Round, F.Schedule, F.RoundConstant, F.BigSigma0, F.BigSigma1, F.Ch, F.Maj, ScheduleStep;
    if t > 0 {
      RoundsFollow(v, block, w, a, e, t - 1);
      ScheduleUnique(block, w, t - 1);
      assert RoundStep(w, a, e, t - 1);
      RoundEquations(StateAt(a, e, t - 1), F.RoundConstant(t - 1), w[t - 1]);
    }
  }

  /** The sequence of all values of a: those it has before the first round, and those the rounds give it. */
  ghost function ValuesOfA(v: F.HashValue, block: F.Block): (a: seq<uint32>)
    ensures |a| == 68
  {
    [v.d, v.c, v.b] + seq(65, t requires 0 <= t < 65 => F.Rounds(v, block, t).a)
  }

  ghost function ValuesOfE(v: F.HashValue, block: F.Block): (e: seq<uint32>)
    ensures |e| == 68
  {
    [v.h, v.g, v.f] + seq(65, t requires 0 <= t < 65 => F.Rounds(v, block, t).e)
  }

  lemma {:induction false} ValuesFollow(v: F.HashValue, block: F.Block, t: nat)
    requires t <= 64
    ensures F.Rounds(v, block, t) == StateAt(ValuesOfA(v, block), ValuesOfE(v, block), t)
    decreases t
  {
    hide F.Round, F.Schedule, F.RoundConstant;
    if t > 0 {
      ValuesFollow(v, block, t - 1);
      RoundEquations(F.Rounds(v, block, t - 1), F.RoundConstant(t - 1), F.Schedule(block, t - 1));
    }
  }

  /** Such sequences exist. */
  lemma RoundsExist(v: F.HashValue, block: F.Block, w: seq<uint32>)
    requires IsSchedule(block, w)
    ensures AreRounds(v, w, ValuesOfA(v, block), ValuesOfE(v, block))
  {
    var a, e := ValuesOfA(v, block), ValuesOfE(v, block);
    hide ScheduleStep, F.Round, F.Schedule, F.RoundConstant, F.BigSigma0, F.BigSigma1, F.Ch, F.Maj;
    forall t | 0 <= t < 64
      ensures RoundStep(w, a, e, t)
    {
      hide ValuesOfA, ValuesOfE;
      ValuesFollow(v, block, t);
      ValuesFollow(v, block, t + 1);
      ScheduleUnique(block, w, t);
      RoundEquations(StateAt(a, e, t), F.RoundConstant(t), w[t]);
    }
  }

  /** `r` is what the 64 rounds on the block make of `v`. */
  ghost predicate RoundsReach(v: F.HashValue, block: F.Block, r: F.HashValue) {
    exists w, a, e {:trigger IsSchedule(block, w), AreRounds(v, w, a, e)} ::
      IsSchedule(block, w) && AreRounds(v, w, a, e)
      && r == F.HashValue(a[67], a[66], a[65], a[64], e[67], e[66], e[65], e[64])
  }

  lemma RoundsReachIff(v: F.HashValue, block: F.Block, r: F.HashValue)
    ensures RoundsReach(v, block, r) <==> r == F.Rounds(v, block, 64)
  {
    hide IsSchedule, RoundStep, F.Rounds, F.Schedule, ValuesOfA, ValuesOfE;
    if RoundsReach(v, block, r) {
      var w, a, e :| IsSchedule(block, w) && AreRounds(v, w, a, e)
                     && r == F.HashValue(a[67], a[66], a[65], a[64], e[67], e[66], e[65], e[64]);
      RoundsFollow(v, block, w, a, e, 64);
    }
    if r == F.Rounds(v, block, 64) {
      var w := seq(64, t requires 0 <= t < 64 => F.Schedule(block, t));
      ScheduleIs(block, w);
      RoundsExist(v, block, w);
      ValuesFollow(v, block, 64);
    }
  }

  // ----- one block

  /** `u` is `v` after the block. */
  ghost predicate IsCompression(v: F.HashValue, block: F.Block, u: F.HashValue) {
    exists r :: RoundsReach(v, block, r) && FeedsForward(v, r, u)
  }

  ghost predicate FeedsForward(v: F.HashValue, r: F.HashValue, u: F.HashValue) {
    && u.a == (v.a + r.a) % 0x1_0000_0000 && u.b == (v.b + r.b) % 0x1_0000_0000
    && u.c == (v.c + r.c) % 0x1_0000_0000 && u.d == (v.d + r.d) % 0x1_0000_0000
    && u.e == (v.e + r.e) % 0x1_0000_0000 && u.f == (v.f + r.f) % 0x1_0000_0000
    && u.g == (v.g + r.g) % 0x1_0000_0000 && u.h == (v.h + r.h) % 0x1_0000_0000
  }

  lemma CompressionIff(v: F.HashValue, block: F.Block, u: F.HashValue)
    ensures IsCompression(v, block, u) <==> u == F.Compress(v, block)
  {
    hide RoundsReach, F.Rounds;
    var r := F.Rounds(v, block, 64);
    RoundsReachIff(v, block, r);
    if IsCompression(v, block, u) {
      var q :| RoundsReach(v, block, q) && FeedsForward(v, q, u);
      RoundsReachIff(v, block, q);
    }
    if u == F.Compress(v, block) {
      assert FeedsForward(v, r, u);
    }
  }

  // ----- the padded message

  /** A one bit, zeros, and the length in bits in the last eight bytes, in the fewest blocks that hold them. */
  ghost predicate IsPadding(m: seq<byte>, p: seq<byte>) {
    && |p| % 64 == 0 && |m| + 9 <= |p| < |m| + 9 + 64
    && p[..|m|] == m && p[|m|] == 128
    && (forall i :: |m| < i < |p| - 8 ==> p[i] == 0)
    && BigEndian(p, |p| - 8) * 0x1_0000_0000 + BigEndian(p, |p| - 4) == (8 * |m|) % 0x1_0000_0000_0000_0000
  }

  lemma FourBytes(b: seq<byte>, at: nat)
    requires at + 4 <= |b|
    ensures BigEndian(b, at) < 0x1_0000_0000 && b[at..at + 4] == F.WordBytes(BigEndian(b, at))
  {
    BytesOfFour(b[at], b[at + 1], b[at + 2], b[at + 3]);
  }

  lemma BytesOfFour(b0: byte, b1: byte, b2: byte, b3: byte)
    ensures var n: nat := b0 * 0x100_0000 + b1 * 0x1_0000 + b2 * 0x100 + b3;
      n < 0x1_0000_0000 && F.WordBytes(n) == [b0, b1, b2, b3]
  {
    var n: nat := b0 * 0x100_0000 + b1 * 0x1_0000 + b2 * 0x100 + b3;
    var h: nat, l: nat := b0 * 0x100 + b1, b0 * 0x1_0000 + b1 * 0x100 + b2;
    DivModUnique(n, 0x100, l, b3);
    DivModUnique(n, 0x1_0000, h, b2 * 0x100 + b3);
    DivModUnique(n, 0x100_0000, b0, b1 * 0x1_0000 + b2 * 0x100 + b3);
    DivModUnique(l, 0x100, h, b2);
    DivModUnique(h, 0x100, b0, b1);
  }

  lemma EightBytes(p: seq<byte>, at: nat, n: word64)
    requires at + 8 == |p|
    ensures BigEndian(p, at) * 0x1_0000_0000 + BigEndian(p, at + 4) == n <==> p[at..] == F.BigEndian64(n)
  {
    hide F.WordBytes, BigEndian;
    FourBytes(p, at);
    FourBytes(p, at + 4);
    var hi, lo := BigEndian(p, at), BigEndian(p, at + 4);
    assert p[at..] == p[at..at + 4] + p[at + 4..at + 8];
    if hi * 0x1_0000_0000 + lo == n {
      DivModUnique(n, 0x1_0000_0000, hi, lo);
    }
    if p[at..] == F.BigEndian64(n) {
      assert p[at..][..4] == p[at..at + 4] && p[at..][4..] == p[at + 4..at + 8];
      F.WordBytesInjective(hi, n / 0x1_0000_0000);
      F.WordBytesInjective(lo, n % 0x1_0000_0000);
    }
  }

  lemma PaddingIff(m: seq<byte>, p: seq<byte>)
    ensures IsPadding(m, p) <==> p == F.Padded(m)
  {
    hide F.BigEndian64, F.BitLength, BigEndian;
    var zeros := (55 - |m|) % 64;
    var bits := F.BigEndian64(F.BitLength(|m|));
    assert F.BitLength(|m|) == (8 * |m|) % 0x1_0000_0000_0000_0000 by { BitLengthIs(|m|); }
    if IsPadding(m, p) {
      LengthUnique(|m|, |p|);
      EightBytes(p, |p| - 8, F.BitLength(|m|));
      assert p == p[..|m|] + [p[|m|]] + p[|m| + 1..|p| - 8] + p[|p| - 8..];
      assert p[|m| + 1..|p| - 8] == F.Zeros(zeros);
    }
    if p == F.Padded(m) {
      F.PaddedEnds(m);
      EightBytes(p, |p| - 8, F.BitLength(|m|));
      assert p[|m|] == 128;
    }
  }

  lemma BitLengthIs(n: nat)
    ensures F.BitLength(n) == (8 * n) % 0x1_0000_0000_0000_0000
  {
  }

  lemma LengthUnique(n: nat, l: nat)
    requires l % 64 == 0 && n + 9 <= l < n + 9 + 64
    ensures l == n + 9 + (55 - n) % 64
  {
    DivModUnique(55 - n, 64, 1 - l / 64, l - n - 9);
  }

  // ----- whole messages

  /** The hash values between the blocks. */
  ghost predicate AreHashValues(p: seq<byte>, hs: seq<F.HashValue>) {
    && |p| % 64 == 0 && |hs| == |p| / 64 + 1 && hs[0] == F.INITIAL_HASH
    && (forall k :: 0 <= k < |p| / 64 ==> BlockStep(p, hs, k))
  }

  ghost predicate BlockStep(p: seq<byte>, hs: seq<F.HashValue>, k: nat)
    requires 64 * k + 64 <= |p| && k + 1 < |hs|
  {
    IsCompression(hs[k], p[64 * k..64 * k + 64], hs[k + 1])
  }

  ghost predicate IsOutput(v: F.HashValue, d: seq<byte>) {
    && |d| == 32
    && BigEndian(d, 0) == v.a && BigEndian(d, 4) == v.b && BigEndian(d, 8) == v.c && BigEndian(d, 12) == v.d
    && BigEndian(d, 16) == v.e && BigEndian(d, 20) == v.f && BigEndian(d, 24) == v.g && BigEndian(d, 28) == v.h
  }

  ghost predicate IsDigest(m: seq<byte>, d: seq<byte>) {
    exists p, hs :: IsPadding(m, p) && AreHashValues(p, hs) && IsOutput(hs[|hs| - 1], d)
  }

  lemma {:induction false} HashValuesFollow(p: seq<byte>, hs: seq<F.HashValue>, k: nat)
    requires AreHashValues(p, hs) && k <= |p| / 64
    ensures hs[k] == F.HashBlocks(F.INITIAL_HASH, p, k)
    decreases k
  {
    hide F.Compress, IsCompression;
    if k > 0 {
      HashValuesFollow(p, hs, k - 1);
      assert BlockStep(p, hs, k - 1);
      CompressionIff(hs[k - 1], F.BlockAt(p, k - 1), hs[k]);
    }
  }

  lemma HashValuesExist(p: seq<byte>)
    requires |p| % 64 == 0
    ensures AreHashValues(p, seq(|p| / 64 + 1, k requires 0 <= k <= |p| / 64 => F.HashBlocks(F.INITIAL_HASH, p, k)))
  {
    hide F.Compress, IsCompression;
    var hs := seq(|p| / 64 + 1, k requires 0 <= k <= |p| / 64 => F.HashBlocks(F.INITIAL_HASH, p, k));
    forall k | 0 <= k < |p| / 64
      ensures BlockStep(p, hs, k)
    {
      CompressionIff(hs[k], F.BlockAt(p, k), hs[k + 1]);
    }
  }

  lemma OutputIff(v: F.HashValue, d: seq<byte>)
    ensures IsOutput(v, d) <==> d == F.DigestBytes(v)
  {
    hide F.WordBytes, BigEndian;
    if |d| == 32 {
      OutputWord(d, 0, v.a);
      OutputWord(d, 4, v.b);
      OutputWord(d, 8, v.c);
      OutputWord(d, 12, v.d);
      OutputWord(d, 16, v.e);
      OutputWord(d, 20, v.f);
      OutputWord(d, 24, v.g);
      OutputWord(d, 28, v.h);
      assert d == d[0..4] + d[4..8] + d[8..12] + d[12..16] + d[16..20] + d[20..24] + d[24..28] + d[28..32];
    }
  }

  lemma OutputWord(d: seq<byte>, at: nat, w: uint32)
    requires at + 4 <= |d|
    ensures BigEndian(d, at) == w <==> d[at..at + 4] == F.WordBytes(w)
  {
    hide F.WordBytes, BigEndian;
    FourBytes(d, at);
    if d[at..at + 4] == F.WordBytes(w) {
      F.WordBytesInjective(BigEndian(d, at), w);
    }
  }

  /** The relation is the function. */
  lemma DigestIff(m: seq<byte>, d: seq<byte>)
    ensures IsDigest(m, d) <==> d == F.Sha256(m)
  {
    hide IsPadding, BlockStep, IsOutput, F.Padded, F.HashBlocks, F.DigestBytes;
    var q := F.Padded(m);
    OutputIff(F.HashBlocks(F.INITIAL_HASH, q, |q| / 64), d);
    if IsDigest(m, d) {
      var p, hs :| IsPadding(m, p) && AreHashValues(p, hs) && IsOutput(hs[|hs| - 1], d);
      PaddingIff(m, p);
      HashValuesFollow(p, hs, |p| / 64);
    }
    if d == F.Sha256(m) {
      PaddingIff(m, q);
      HashValuesExist(q);
    }
  }
}
