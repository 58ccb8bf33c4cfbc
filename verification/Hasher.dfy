/** `hash256_one_by_one` of picosha2.h and the functions built on it: a streaming SHA-256 whose state depends
    only on the bytes absorbed so far, however they were cut into chunks. */
module Hashing {
  import opened Words
  import opened LengthLimbs
  import opened Compression
  import F = Fips180
  import R = DigestRelation

  // ----- the state as a value

  /** `buffer_`, `data_length_digits_` and `h_`. */
  datatype HasherState = HasherState(buffer: seq<byte>, length: word64, digest: F.HashValue)

  /** What the state must be once the bytes `m` have been absorbed. */
  ghost function StateOf(m: seq<byte>): HasherState {
    HasherState(m[64 * (|m| / 64)..], |m| % 0x1_0000_0000_0000_0000, F.HashBlocks(F.INITIAL_HASH, m, |m| / 64))
  }

  /** What `process` does to a state. */
  ghost function Processed(st: HasherState, chunk: seq<byte>): HasherState {
    var all := st.buffer + chunk;
    HasherState(all[64 * (|all| / 64)..], (st.length + |chunk|) % 0x1_0000_0000_0000_0000,
                F.HashBlocks(st.digest, all, |all| / 64))
  }

  ghost function ProcessedAll(st: HasherState, chunks: seq<seq<byte>>): HasherState
    decreases |chunks|
  {
    if chunks == [] then st else ProcessedAll(Processed(st, chunks[0]), chunks[1..])
  }

  ghost function Flatten(chunks: seq<seq<byte>>): seq<byte> {
    if chunks == [] then [] else chunks[0] + Flatten(chunks[1..])
  }

  /** The last one or two blocks, as `finish` builds them in `temp`. */
  ghost function Finished(st: HasherState): F.HashValue
    requires |st.buffer| < 64
  {
    var n := |st.buffer|;
    var bits := F.BigEndian64(F.BitLength(st.length));
    if n > 55 then
      F.Compress(F.Compress(st.digest, st.buffer + [0x80] + F.Zeros(63 - n)), F.Zeros(56) + bits)
    else
      F.Compress(st.digest, st.buffer + [0x80] + F.Zeros(55 - n) + bits)
  }

  // ----- chunk independence

  lemma ProcessedStateOf(m: seq<byte>, chunk: seq<byte>)
    ensures Processed(StateOf(m), chunk) == StateOf(m + chunk)
  {
    hide F.Compress, F.HashBlocks;
    var k := |m| / 64;
    var all := m[64 * k..] + chunk;
    var j := |all| / 64;
    assert |m + chunk| == 64 * k + |all|;
    DivModUnique(|m + chunk|, 64, k + j, |all| % 64);
    assert (m + chunk)[64 * k..] == all;
    assert (m + chunk)[64 * (k + j)..] == all[64 * j..];
    F.HashBlocksResume(F.INITIAL_HASH, m + chunk, k, j);
    assert (m + chunk)[..64 * k] == m[..64 * k];
    F.HashBlocksPrefix(F.INITIAL_HASH, m + chunk, m, k);
    ModAdd(|m|, |chunk|);
  }

  lemma ModAdd(a: nat, b: nat)
    ensures (a % 0x1_0000_0000_0000_0000 + b) % 0x1_0000_0000_0000_0000 == (a + b) % 0x1_0000_0000_0000_0000
  {
  }

  /** For any way of cutting a message into chunks, the state reached depends only on the concatenation. */
  lemma {:induction false} ChunkIndependence(m: seq<byte>, chunks: seq<seq<byte>>)
    ensures ProcessedAll(StateOf(m), chunks) == StateOf(m + Flatten(chunks))
    decreases |chunks|
  {
    hide StateOf, Processed;
    if chunks == [] {
      assert m + Flatten(chunks) == m;
    } else {
      ProcessedStateOf(m, chunks[0]);
      ChunkIndependence(m + chunks[0], chunks[1..]);
      assert m + chunks[0] + Flatten(chunks[1..]) == m + Flatten(chunks);
    }
  }

  // ----- padding

  /** `finish` compresses exactly the blocks that padding adds, in both branches. */
  lemma FinishedIsPadded(m: seq<byte>)
    ensures Finished(StateOf(m)) == F.HashBlocks(F.INITIAL_HASH, F.Padded(m), |F.Padded(m)| / 64)
  {
    hide F.Compress, F.BigEndian64, F.BitLength, F.Padded;
    BitLengthMod(|m|);
    var k, n := |m| / 64, |m| % 64;
    var p, tail := F.Padded(m), m[64 * k..];
    var bits := F.BigEndian64(F.BitLength(|m|));
    PaddedShape(m, tail, k, n);
    if n > 55 {
      TwoBlocks(p, m[..64 * k], tail, bits, k);
      F.HashBlocksPrefix(F.INITIAL_HASH, p, m, k);
      assert F.HashBlocks(F.INITIAL_HASH, p, k + 2)
          == F.Compress(F.HashBlocks(F.INITIAL_HASH, p, k + 1), F.BlockAt(p, k + 1));
    } else {
      OneBlock(p, m[..64 * k], tail, bits, k);
      F.HashBlocksPrefix(F.INITIAL_HASH, p, m, k);
    }
  }

  lemma PaddedShape(m: seq<byte>, tail: seq<byte>, k: nat, n: nat)
    requires |m| == 64 * k + n && n < 64 && tail == m[64 * k..]
    ensures var zeros := if n > 55 then 119 - n else 55 - n;
      F.Padded(m) == m[..64 * k] + (tail + [0x80] + F.Zeros(zeros) + F.BigEndian64(F.BitLength(|m|)))
    ensures |F.Padded(m)| / 64 == if n > 55 then k + 2 else k + 1
  {
    hide F.BigEndian64, F.BitLength;
    if n > 55 {
      DivModUnique(55 - |m|, 64, 0 - k - 1, 119 - n);
    } else {
      DivModUnique(55 - |m|, 64, 0 - k, 55 - n);
    }
    assert m == m[..64 * k] + tail;
  }

  lemma OneBlock(p: seq<byte>, head: seq<byte>, tail: seq<byte>, bits: seq<byte>, k: nat)
    requires |head| == 64 * k && |tail| <= 55 && |bits| == 8
    requires p == head + (tail + [0x80] + F.Zeros(55 - |tail|) + bits)
    ensures |p| == 64 * k + 64 && p[..64 * k] == head
    ensures F.BlockAt(p, k) == tail + [0x80] + F.Zeros(55 - |tail|) + bits
  {
  }

  lemma TwoBlocks(p: seq<byte>, head: seq<byte>, tail: seq<byte>, bits: seq<byte>, k: nat)
    requires |head| == 64 * k && 55 < |tail| < 64 && |bits| == 8
    requires p == head + (tail + [0x80] + F.Zeros(119 - |tail|) + bits)
    ensures |p| == 64 * k + 128 && p[..64 * k] == head
    ensures F.BlockAt(p, k) == tail + [0x80] + F.Zeros(63 - |tail|)
    ensures F.BlockAt(p, k + 1) == F.Zeros(56) + bits
  {
  }

  lemma BitLengthMod(n: nat)
    ensures F.BitLength(n % 0x1_0000_0000_0000_0000) == F.BitLength(n)
  {
    var q := n / 0x1_0000_0000_0000_0000;
    var r := n % 0x1_0000_0000_0000_0000;
    assert 8 * n == 0x1_0000_0000_0000_0000 * (8 * q) + 8 * r;
    DivModUnique(8 * n, 0x1_0000_0000_0000_0000, 8 * q + (8 * r) / 0x1_0000_0000_0000_0000,
                 (8 * r) % 0x1_0000_0000_0000_0000);
  }

  // ----- the hasher

  function WordsOf(v: F.HashValue): seq<uint32> {
    [v.a, v.b, v.c, v.d, v.e, v.f, v.g, v.h]
  }

  class Hasher {
    var buffer: seq<byte>
    const digits: array<word64>
    const h: array<word64>

    /** The fields hold the state `st`. */
    ghost predicate Represents(st: HasherState)
      reads this, digits, h
    {
      && digits.Length == 4 && h.Length == 8 && digits != h
      && Normal(digits[..]) && LimbValue(digits[..]) == st.length
      && Holds(h[..], st.digest)
      && buffer == st.buffer && |buffer| < 64
    }

    /** `init`. */
    constructor ()
      ensures Represents(StateOf([])) && fresh(digits) && fresh(h)
    {
      buffer := [];
      digits := new word64[4](_ => 0);
      var words := WordsOf(F.INITIAL_HASH);
      h := new word64[8](i requires 0 <= i < 8 => words[i]);
      new;
      assert h[..] == words;
    }

    /** `process`. */
    method Process(chunk: seq<byte>, ghost st: HasherState)
      requires Represents(st)
      modifies this, digits, h
      ensures Represents(Processed(st, chunk))
    {
      hide F.Compress, Normal, LimbValue, Holds, R.IsCompression;
      ghost var total := (st.length + |chunk|) % 0x1_0000_0000_0000_0000;
      AddToDataLength(digits, |chunk| % 0x1_0000_0000_0000_0000);
      ModAdd(|chunk|, st.length);
      buffer := buffer + chunk;
      var i := 0;
      ghost var n := 0;
      while i + 64 <= |buffer|
        invariant i == 64 * n <= |buffer|
        invariant buffer == st.buffer + chunk
        invariant Normal(digits[..]) && LimbValue(digits[..]) == total
        invariant Holds(h[..], F.HashBlocks(st.digest, buffer, n))
      {
        ghost var limbs := digits[..];
        Hash256Block(h, buffer[i..i + 64], F.HashBlocks(st.digest, buffer, n));
        assert digits[..] == limbs;
        assert F.BlockAt(buffer, n) == buffer[i..i + 64];
        i, n := i + 64, n + 1;
      }
      assert n == |buffer| / 64;
      buffer := buffer[i..];
    }

    /** `finish`. */
    method Finish(ghost st: HasherState)
      requires Represents(st)
      modifies h
      ensures Holds(h[..], Finished(st))
    {
      hide F.Compress, Normal, LimbValue, Holds, F.BigEndian64, F.BitLength, R.IsCompression;
      ghost var bits := F.BigEndian64(F.BitLength(st.length));
      ghost var limbs, words := digits[..], h[..];
      var temp := new byte[64](_ => 0);
      var remains := |buffer|;
      forall i | 0 <= i < remains {
        temp[i] := buffer[i];
      }
      temp[remains] := 0x80;
      if remains > 55 {
        forall i | remains + 1 <= i < 64 {
          temp[i] := 0;
        }
        assert temp[..] == st.buffer + [0x80] + F.Zeros(63 - remains);
        assert h[..] == words;
        Hash256Block(h, temp[..], st.digest);
        words := h[..];
        forall i | 0 <= i < 64 - 4 {
          temp[i] := 0;
        }
        assert temp[..56] == F.Zeros(56);
        assert digits[..] == limbs;
        WriteDataBitLength(digits, temp, 56);
        assert h[..] == words;
        assert temp[..] == F.Zeros(56) + bits;
        Hash256Block(h, temp[..], F.Compress(st.digest, st.buffer + [0x80] + F.Zeros(63 - remains)));
      } else {
        forall i | remains + 1 <= i < 64 - 4 {
          temp[i] := 0;
        }
        assert temp[..56] == st.buffer + [0x80] + F.Zeros(55 - remains);
        assert digits[..] == limbs;
        WriteDataBitLength(digits, temp, 56);
        assert h[..] == words;
        assert temp[..] == st.buffer + [0x80] + F.Zeros(55 - remains) + bits;
        Hash256Block(h, temp[..], st.digest);
      }
    }

    /** `get_hash_bytes`: as much of the 32-byte digest as the output range holds. */
    method GetHashBytes(out: array<byte>, ghost v: F.HashValue)
      requires h.Length == 8 && Holds(h[..], v) && out as object != h
      modifies out
      ensures forall i :: 0 <= i < out.Length ==> out[i] == if i < 32 then F.DigestBytes(v)[i] else old(out[i])
    {
      var first := 0;
      for iter := 0 to 8
        invariant h[..] == old(h[..])
        invariant first == if 4 * iter < out.Length then 4 * iter else out.Length
        invariant forall k :: 0 <= k < out.Length ==> out[k] == if k < first then F.DigestBytes(v)[k] else old(out[k])
      {
        var i := 0;
        while i < 4 && first != out.Length
          invariant 0 <= i <= 4 && first <= out.Length
          invariant h[..] == old(h[..])
          invariant first == if 4 * iter + i < out.Length then 4 * iter + i else out.Length
          invariant forall k :: 0 <= k < out.Length ==> out[k] == if k < first then F.DigestBytes(v)[k] else old(out[k])
        {
          ByteOfWord(WordsOf(v)[iter], i);
          DigestAt(v, iter, i);
          out[first] := F.LowByte(Shr(h[iter], 24 - 8 * i));
          first := first + 1;
          i := i + 1;
        }
      }
    }
  }

  /** Down to the fields: two hashers that have absorbed the same bytes, cut into chunks differently, are equal in
      buffer, limbs and words. */
  lemma ChunksInFields(a: Hasher, cs: seq<seq<byte>>, b: Hasher, ds: seq<seq<byte>>)
    requires a.Represents(ProcessedAll(StateOf([]), cs)) && b.Represents(ProcessedAll(StateOf([]), ds))
    requires Flatten(cs) == Flatten(ds)
    ensures a.buffer == b.buffer && a.digits[..] == b.digits[..] && a.h[..] == b.h[..]
  {
    hide StateOf, ProcessedAll, Flatten;
    ChunkIndependence([], cs);
    ChunkIndependence([], ds);
    LimbsUnique(a.digits[..], b.digits[..]);
  }

  lemma ByteOfWord(w: uint32, i: nat)
    requires i < 4
    ensures F.LowByte(Shr(w, 24 - 8 * i)) == F.WordBytes(w)[i]
  {
    Pow2Values();
    ShrIsDiv(w, 24 - 8 * i);
    assert Pow2(0) == 1;
  }

  lemma DigestAt(v: F.HashValue, j: nat, i: nat)
    requires j < 8 && i < 4
    ensures F.DigestBytes(v)[4 * j + i] == F.WordBytes(WordsOf(v)[j])[i]
  {
    hide F.LowByte;
  }

  // ----- whole messages

  /** `hash256_impl` for random-access iterators: one `process` call. */
  method Hash256(m: seq<byte>) returns (digest: seq<byte>)
    ensures digest == F.Sha256(m) && R.IsDigest(m, digest)
  {
    hide F.HashBlocks, F.Padded, F.DigestBytes, StateOf, Finished, Processed, R.IsDigest;
    var hasher := new Hasher();
    hasher.Process(m, StateOf([]));
    ProcessedStateOf([], m);
    assert [] + m == m;
    hasher.Finish(StateOf(m));
    FinishedIsPadded(m);
    digest := Output(hasher, F.HashBlocks(F.INITIAL_HASH, F.Padded(m), |F.Padded(m)| / 64));
    R.DigestIff(m, digest);
  }

  method Output(hasher: Hasher, ghost v: F.HashValue) returns (digest: seq<byte>)
    requires hasher.h.Length == 8 && Holds(hasher.h[..], v)
    ensures digest == F.DigestBytes(v)
  {
    var out := new byte[32];
    hasher.GetHashBytes(out, v);
    digest := out[..];
  }

  /** `hash256_impl` for input iterators: chunks of at most `bufferSize` bytes. */
  method Hash256Buffered(m: seq<byte>, bufferSize: nat) returns (digest: seq<byte>)
    requires bufferSize > 0
    ensures digest == F.Sha256(m) && R.IsDigest(m, digest)
  {
    hide F.HashBlocks, F.Padded, F.DigestBytes, StateOf, Finished, Processed, R.IsDigest;
    var buffer := new byte[bufferSize](_ => 0);
    var hasher := new Hasher();
    var first := 0;
    assert m[..0] == [];
    while first != |m|
      invariant 0 <= first <= |m|
      invariant hasher.Represents(StateOf(m[..first])) && fresh(hasher) && fresh(hasher.digits) && fresh(hasher.h)
      invariant buffer != hasher.digits as object && buffer != hasher.h as object
      decreases |m| - first
    {
      var start := first;
      var size := bufferSize;
      var i := 0;
      while i != bufferSize
        invariant 0 <= i <= bufferSize && first == start + i <= |m|
        invariant buffer[..i] == m[start..first]
        invariant size == bufferSize
        invariant hasher.Represents(StateOf(m[..start]))
        decreases bufferSize - i
      {
        if first == |m| {
          size := i;
          break;
        }
        buffer[i] := m[first];
        i, first := i + 1, first + 1;
      }
      hasher.Process(buffer[..size], StateOf(m[..start]));
      ProcessedStateOf(m[..start], m[start..first]);
      assert m[..start] + m[start..first] == m[..first];
    }
    assert m[..first] == m;
    hasher.Finish(StateOf(m));
    FinishedIsPadded(m);
    digest := Output(hasher, F.HashBlocks(F.INITIAL_HASH, F.Padded(m), |F.Padded(m)| / 64));
    R.DigestIff(m, digest);
  }
}
