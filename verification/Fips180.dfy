/** SHA-256 as FIPS 180-4 defines it, over 32-bit words and with no reference to how
    `picosha2.h` computes it. Section numbers below are those of FIPS 180-4. */
module Fips180 {
  import opened Words

  /** Eight words: a hash value H0..H7, or the working variables of section 6.2.2. */
  datatype HashValue = HashValue(a: uint32, b: uint32, c: uint32, d: uint32, e: uint32, f: uint32, g: uint32, h: uint32)
  type Block = b: seq<byte> | |b| == 64 witness seq(64, _ => 0)

  // ----- section 2.2.2 and 3.2: operations on words

  function And32(x: uint32, y: uint32): uint32 {
    AndBound(x, y);
    And(x, y)
  }

  function Xor32(x: uint32, y: uint32): uint32 {
    Pow2Values();
    XorBound(x, y, 32);
    Xor(x, y)
  }

  function Complement(x: uint32): uint32 {
    0xffff_ffff - x
  }

  function SHR(x: uint32, n: nat): uint32 {
    ShrBound(x, n);
    Shr(x, n)
  }

  /** The circular right shift: the low `n` digits reappear on top. */
  function ROTR(x: uint32, n: nat): uint32
    requires n < 32
  {
    RotationBound(x, n);
    (x % Pow2(n)) * Pow2(32 - n) + x / Pow2(n)
  }

  lemma {:induction false} ShrBound(x: nat, n: nat)
    ensures Shr(x, n) <= x
  {
    if n > 0 {
      ShrBound(x / 2, n - 1);
    }
  }

  lemma RotationBound(x: uint32, n: nat)
    requires n < 32
    ensures x / Pow2(n) < Pow2(32 - n)
    ensures 0 <= (x % Pow2(n)) * Pow2(32 - n) + x / Pow2(n) < 0x1_0000_0000
  {
    hide Pow2;
    var p, r := Pow2(n), Pow2(32 - n);
    assert p * r == 0x1_0000_0000 by {
      Pow2Values();
      Pow2Add(n, 32 - n);
    }
    SplitBound(x, p, r, 0x1_0000_0000);
  }

  /** `x < p * r` splits into a high part below `r` and a low part below `p`, exchanged within the same bound. */
  lemma SplitBound(x: nat, p: nat, r: nat, m: nat)
    requires p > 0 && p * r == m && x < m
    ensures 0 <= x / p < r && 0 <= (x % p) * r + x / p < m
  {
    var q := x / p;
    assert x == p * q + x % p;
    if q >= r {
      MulMonotone(p, r, q);
    }
    if q < 0 {
      MulMonotone(p, q, -1);
    }
    MulMonotone(r, x % p, p - 1);
    assert r * (p - 1) == p * r - r;
  }

  // ----- section 4.1.2: functions

  function Ch(x: uint32, y: uint32, z: uint32): uint32 {
    Xor32(And32(x, y), And32(Complement(x), z))
  }

  function Maj(x: uint32, y: uint32, z: uint32): uint32 {
    Xor32(Xor32(And32(x, y), And32(x, z)), And32(y, z))
  }

  function BigSigma0(x: uint32): uint32 {
    Xor32(Xor32(ROTR(x, 2), ROTR(x, 13)), ROTR(x, 22))
  }

  function BigSigma1(x: uint32): uint32 {
    Xor32(Xor32(ROTR(x, 6), ROTR(x, 11)), ROTR(x, 25))
  }

  function SmallSigma0(x: uint32): uint32 {
    Xor32(Xor32(ROTR(x, 7), ROTR(x, 18)), SHR(x, 3))
  }

  function SmallSigma1(x: uint32): uint32 {
    Xor32(Xor32(ROTR(x, 17), ROTR(x, 19)), SHR(x, 10))
  }

  // ----- sections 4.2.2 and 5.3.3: constants

  const ROUND_CONSTANTS: seq<uint32> :=
    [0x428a2f98, 0x71374491, 0xb5c0fbcf, 0xe9b5dba5, 0x3956c25b, 0x59f111f1, 0x923f82a4, 0xab1c5ed5]
    + [0xd807aa98, 0x12835b01, 0x243185be, 0x550c7dc3, 0x72be5d74, 0x80deb1fe, 0x9bdc06a7, 0xc19bf174]
    + [0xe49b69c1, 0xefbe4786, 0x0fc19dc6, 0x240ca1cc, 0x2de92c6f, 0x4a7484aa, 0x5cb0a9dc, 0x76f988da]
    + [0x983e5152, 0xa831c66d, 0xb00327c8, 0xbf597fc7, 0xc6e00bf3, 0xd5a79147, 0x06ca6351, 0x14292967]
    + [0x27b70a85, 0x2e1b2138, 0x4d2c6dfc, 0x53380d13, 0x650a7354, 0x766a0abb, 0x81c2c92e, 0x92722c85]
    + [0xa2bfe8a1, 0xa81a664b, 0xc24b8b70, 0xc76c51a3, 0xd192e819, 0xd6990624, 0xf40e3585, 0x106aa070]
    + [0x19a4c116, 0x1e376c08, 0x2748774c, 0x34b0bcb5, 0x391c0cb3, 0x4ed8aa4a, 0x5b9cca4f, 0x682e6ff3]
    + [0x748f82ee, 0x78a5636f, 0x84c87814, 0x8cc70208, 0x90befffa, 0xa4506ceb, 0xbef9a3f7, 0xc67178f2]

  const INITIAL_HASH: HashValue := HashValue(
    0x6a09e667, 0xbb67ae85, 0x3c6ef372, 0xa54ff53a, 0x510e527f, 0x9b05688c, 0x1f83d9ab, 0x5be0cd19)

  function RoundConstant(t: nat): uint32
    requires t < 64
  {
    ROUND_CONSTANTS[t]
  }

  // ----- section 6.2.2: the compression of one block

  function Sum32(terms: nat): uint32 {
    terms % 0x1_0000_0000
  }

  function FromBytes(b0: nat, b1: nat, b2: nat, b3: nat): nat {
    b0 * 0x100_0000 + b1 * 0x1_0000 + b2 * 0x100 + b3
  }

  /** Section 5.2.1: the big-endian word at position `t` of the block. */
  function BlockWord(block: Block, t: nat): uint32
    requires t < 16
  {
    FromBytes(block[4 * t], block[4 * t + 1], block[4 * t + 2], block[4 * t + 3])
  }

  /** Step 1: the message schedule. */
  function Schedule(block: Block, t: nat): uint32
    requires t < 64
  {
    if t < 16 then
      BlockWord(block, t)
    else
      Sum32(SmallSigma1(Schedule(block, t - 2)) + Schedule(block, t - 7)
            + SmallSigma0(Schedule(block, t - 15)) + Schedule(block, t - 16))
  }

  /** Step 3: one round on the working variables a, b, c, d, e, f, g, h. */
  function Round(v: HashValue, k: uint32, w: uint32): HashValue {
    var t1 := Sum32(v.h + BigSigma1(v.e) + Ch(v.e, v.f, v.g) + k + w);
    var t2 := Sum32(BigSigma0(v.a) + Maj(v.a, v.b, v.c));
    HashValue(Sum32(t1 + t2), v.a, v.b, v.c, Sum32(v.d + t1), v.e, v.f, v.g)
  }

  const ROUNDS: nat := 64

  function Rounds(v: HashValue, block: Block, t: nat): HashValue
    requires t <= 64
  {
    if t == 0 then v else Round(Rounds(v, block, t - 1), RoundConstant(t - 1), Schedule(block, t - 1))
  }

  /** Steps 2 to 4. */
  function Compress(v: HashValue, block: Block): HashValue {
    var r := Rounds(v, block, ROUNDS);
    HashValue(Sum32(r.a + v.a), Sum32(r.b + v.b), Sum32(r.c + v.c), Sum32(r.d + v.d),
              Sum32(r.e + v.e), Sum32(r.f + v.f), Sum32(r.g + v.g), Sum32(r.h + v.h))
  }

  // ----- whole messages

  /** The first `n` blocks of `m`, each compressed into the value so far. */
  function HashBlocks(v: HashValue, m: seq<byte>, n: nat): HashValue
    requires 64 * n <= |m|
    decreases n
  {
    if n == 0 then v else Compress(HashBlocks(v, m, n - 1), BlockAt(m, n - 1))
  }

  function BlockAt(m: seq<byte>, i: nat): Block
    requires 64 * i + 64 <= |m|
  {
    m[64 * i..64 * i + 64]
  }

  function Zeros(n: nat): (z: seq<byte>)
    ensures |z| == n && forall i :: 0 <= i < n ==> z[i] == 0
  {
    seq(n, _ => 0)
  }

  function LowByte(n: nat): byte {
    n % 0x100
  }

  /** The four bytes of a word, most significant first. */
  function WordBytes(w: uint32): (b: seq<byte>)
    ensures |b| == 4
  {
    [LowByte(w / 0x100_0000), LowByte(w / 0x1_0000), LowByte(w / 0x100), LowByte(w)]
  }

  function BigEndian64(n: word64): (b: seq<byte>)
    ensures |b| == 8
  {
    WordBytes(n / 0x1_0000_0000) + WordBytes(n % 0x1_0000_0000)
  }

  /** The 64-bit length field. FIPS 180-4 covers messages below 2^64 bits, where no bit is lost. */
  function BitLength(bytes: nat): word64 {
    (8 * bytes) % 0x1_0000_0000_0000_0000
  }

  /** Section 5.1.1: a one bit, the fewest zero bits, the length. */
  function Padded(m: seq<byte>): (p: seq<byte>)
    ensures |p| % 64 == 0
  {
    DivModUnique(|m| + 9 + (55 - |m|) % 64, 64, 1 - (55 - |m|) / 64, 0);
    m + [0x80] + Zeros((55 - |m|) % 64) + BigEndian64(BitLength(|m|))
  }

  function DigestBytes(v: HashValue): (b: seq<byte>)
    ensures |b| == 32
  {
    WordBytes(v.a) + WordBytes(v.b) + WordBytes(v.c) + WordBytes(v.d)
    + WordBytes(v.e) + WordBytes(v.f) + WordBytes(v.g) + WordBytes(v.h)
  }

  function Sha256(m: seq<byte>): (b: seq<byte>)
    ensures |b| == 32
  {
    DigestBytes(HashBlocks(INITIAL_HASH, Padded(m), |Padded(m)| / 64))
  }

  // ----- facts about the definition

  /** Hashing can stop after `i` blocks and resume on the rest. */
  lemma {:induction false} HashBlocksResume(v: HashValue, m: seq<byte>, i: nat, j: nat)
    requires 64 * (i + j) <= |m|
    ensures HashBlocks(v, m, i + j) == HashBlocks(HashBlocks(v, m, i), m[64 * i..], j)
    decreases j
  {
    hide Compress;
    if j > 0 {
      HashBlocksResume(v, m, i, j - 1);
      assert BlockAt(m, i + j - 1) == BlockAt(m[64 * i..], j - 1);
    }
  }

  /** Only the blocks counted matter. */
  lemma {:induction false} HashBlocksPrefix(v: HashValue, m: seq<byte>, m': seq<byte>, n: nat)
    requires 64 * n <= |m| && 64 * n <= |m'| && m[..64 * n] == m'[..64 * n]
    ensures HashBlocks(v, m, n) == HashBlocks(v, m', n)
    decreases n
  {
    hide Compress;
    if n > 0 {
      var k := 64 * (n - 1);
      assert m[..k] == m[..64 * n][..k] == m'[..64 * n][..k] == m'[..k];
      HashBlocksPrefix(v, m, m', n - 1);
      assert BlockAt(m, n - 1) == m[..64 * n][k..] == m'[..64 * n][k..] == BlockAt(m', n - 1);
    }
  }

  lemma WordBytesRecompose(w: uint32)
    ensures var b := WordBytes(w); FromBytes(b[0], b[1], b[2], b[3]) == w
  {
    var q := w / 0x100;
    var r := q / 0x100;
    assert r == w / 0x1_0000 && r / 0x100 == w / 0x100_0000;
    assert w == 0x100 * q + LowByte(w) && q == 0x100 * r + LowByte(q) && r == 0x100 * (r / 0x100) + LowByte(r);
  }

  lemma WordBytesInjective(w: uint32, w': uint32)
    requires WordBytes(w) == WordBytes(w')
    ensures w == w'
  {
    WordBytesRecompose(w);
    WordBytesRecompose(w');
  }

  lemma BigEndian64Injective(n: word64, n': word64)
    requires BigEndian64(n) == BigEndian64(n')
    ensures n == n'
  {
    assert BigEndian64(n)[..4] == WordBytes(n / 0x1_0000_0000) && BigEndian64(n')[..4] == WordBytes(n' / 0x1_0000_0000);
    assert BigEndian64(n)[4..] == WordBytes(n % 0x1_0000_0000) && BigEndian64(n')[4..] == WordBytes(n' % 0x1_0000_0000);
    WordBytesInjective(n / 0x1_0000_0000, n' / 0x1_0000_0000);
    WordBytesInjective(n % 0x1_0000_0000, n' % 0x1_0000_0000);
  }

  lemma PaddedEnds(m: seq<byte>)
    ensures var p := Padded(m);
      |p| >= |m| + 8 && p[..|m|] == m && p[|p| - 8..] == BigEndian64(BitLength(|m|))
  {
    var z := Zeros((55 - |m|) % 64);
    var p := Padded(m);
    assert p == m + ([0x80] + z + BigEndian64(BitLength(|m|)));
    assert p == (m + [0x80] + z) + BigEndian64(BitLength(|m|));
  }

  /** A padded message determines the message: below 2^61 bytes the padding loses nothing. */
  lemma PaddingInjective(m: seq<byte>, m': seq<byte>)
    requires |m| < 0x2000_0000_0000_0000 && |m'| < 0x2000_0000_0000_0000
    requires Padded(m) == Padded(m')
    ensures m == m'
  {
    hide Padded, BigEndian64;
    PaddedEnds(m);
    PaddedEnds(m');
    BigEndian64Injective(BitLength(|m|), BitLength(|m'|));
    assert BitLength(|m|) == 8 * |m| && BitLength(|m'|) == 8 * |m'|;
  }
}
