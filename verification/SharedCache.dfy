/** The class `SharedCache`: the header fields, the slot table and the mapped bytes updated in place, each method
    proved to do what the corresponding function on `Store` says. All offset arithmetic is the wrapping 32-bit
    arithmetic of the source; the proofs show that it never wraps. */
module SharedCacheClass {
  import opened Words
  import opened Compaction
  import opened Checksums
  import S = Store

  lemma LiveBytesZero(slots: seq<Entry>)
    ensures LiveBytes(slots, 0) == 0
    ensures forall base: nat, mem: seq<byte> :: Within(slots, |mem|) && base <= |mem| ==>
      MemAfter(base, slots, mem, 0) == mem
  {
  }

  lemma ValidFacts(s: S.Store)
    requires S.Valid(s)
    ensures s.base <= s.nextOffset <= s.fileSize == |s.mem| && s.entryCount == S.UsedCount(s.slots, |s.slots|)
    ensures |s.slots| < 0x1_0000_0000
  {
  }

  /** One iteration of the loop in `CompactCache`, and the room it stays within. */
  lemma CompactionStep(s: S.Store, i: nat)
    requires S.Valid(s) && i < |s.slots|
    ensures Placeable(s.base, s.slots, |s.mem|) && |s.mem| == s.fileSize
    ensures var e := s.slots[i];
      && LiveBytes(s.slots, i + 1) == LiveBytes(s.slots, i) + Size(e)
      && LiveBytes(s.slots, i) <= LiveBytes(s.slots, i + 1) <= TotalBytes(s.slots) <= s.fileSize - s.base
      && (Live(e) ==> s.base <= e.offset && e.offset + e.length <= s.fileSize)
      && MemAfter(s.base, s.slots, s.mem, i + 1)
         == if Live(e) && e.offset != s.base + LiveBytes(s.slots, i)
            then Move(MemAfter(s.base, s.slots, s.mem, i), s.base + LiveBytes(s.slots, i), e.offset, e.length)
            else MemAfter(s.base, s.slots, s.mem, i)
  {
    hide S.DistinctNames, Disjoint, S.UsedCount;
    S.ValidIsPlaceable(s);
    LiveBytesMonotone(s.slots, i + 1, |s.slots|);
    assert S.EntryOk(s.slots[i], s.base, s.nextOffset);
    var m := MemAfter(s.base, s.slots, s.mem, i);
    if Live(s.slots[i]) {
      MoveOntoItself(m, s.slots[i].offset, s.slots[i].length);
    }
  }

  lemma SlotsAfterStep(base: nat, slots: seq<Entry>, i: nat)
    requires i < |slots|
    ensures SlotsAfter(base, slots, i)[i] == slots[i]
    ensures SlotsAfter(base, slots, i + 1)
         == if Live(slots[i]) then SlotsAfter(base, slots, i)[i := slots[i].(offset := base + LiveBytes(slots, i))]
            else SlotsAfter(base, slots, i)
  {
  }

  lemma MoveOntoItself(m: seq<byte>, at: nat, length: nat)
    requires at + length <= |m|
    ensures Move(m, at, at, length) == m
  {
  }

  class SharedCache {
    /** Start of the data area: `sizeof(CacheHeader) + sizeof(CacheEntryHeader) * CACHE_MAX_ENTRIES`. */
    const base: uint32
    const fileSize: uint32
    const entries: array<Entry>
    const mem: array<byte>
    var magicNumber: uint32
    var version: uint32
    var entryCount: uint32
    var nextOffset: uint32

    ghost function State(): S.Store
      reads this, entries, mem
    {
      S.Store(base, fileSize, entries[..], entryCount, nextOffset, mem[..])
    }

    ghost predicate Valid()
      reads this, entries, mem
    {
      entries as object != mem && S.Valid(State())
    }

    /** `InitMmap`: the file is mapped as it is; only if its magic number or version is another one, as in a new file,
        which is all zeros, it is initialised. A file that bears both is taken at its word. */
    constructor (file: S.Store, magicNumber: uint32, version: uint32)
      requires |file.mem| == file.fileSize < 0x1_0000_0000 && |file.slots| < 0x1_0000_0000 && file.base <= file.fileSize
      requires file.entryCount < 0x1_0000_0000 && file.nextOffset < 0x1_0000_0000
      ensures fresh(entries) && fresh(mem)
      ensures State() == if magicNumber == CACHE_MAGIC && version == CACHE_VERSION then file else S.Cleared(file)
      ensures Valid() <==> (magicNumber == CACHE_MAGIC && version == CACHE_VERSION ==> S.Valid(file))
      ensures this.magicNumber == CACHE_MAGIC && this.version == CACHE_VERSION
    {
      base, fileSize := file.base, file.fileSize;
      entries := new Entry[|file.slots|](i requires 0 <= i < |file.slots| => file.slots[i]);
      mem := new byte[|file.mem|](i requires 0 <= i < |file.mem| => file.mem[i]);
      this.magicNumber, this.version := magicNumber, version;
      entryCount, nextOffset := file.entryCount, file.nextOffset;
      new;
      assert State() == file;
      if magicNumber != CACHE_MAGIC || version != CACHE_VERSION {
        InitializeCache();
      }
    }

    /** `InitializeCache`. */
    method InitializeCache()
      requires entries as object != mem && mem.Length == fileSize && base <= fileSize && entries.Length < 0x1_0000_0000
      modifies this, entries
      ensures Valid() && State() == S.Cleared(old(State()))
      ensures magicNumber == 0xC4C4E001 && version == 1 && nextOffset == base && entryCount == 0
      ensures forall i :: 0 <= i < entries.Length ==> S.IsZeroed(entries[i])
    {
      S.ClearedValid(State());
      magicNumber, version := CACHE_MAGIC, CACHE_VERSION;
      entryCount := 0;
      nextOffset := base;
      forall i | 0 <= i < entries.Length {
        entries[i] := S.EmptyEntry();
      }
      assert entries[..] == S.Cleared(old(State())).slots;
    }

    method FindEntry(key: seq<byte>) returns (idx: int)
      ensures idx == S.FindEntry(entries[..], key)
    {
      for i := 0 to entries.Length
        invariant S.FindEntry(entries[..], key) == S.FirstMatch(entries[..], key, i)
      {
        if S.Matches(entries[i], key) {
          return i;
        }
      }
      return -1;
    }

    method FindFreeEntry() returns (idx: int)
      ensures idx == S.FindFreeEntry(entries[..])
    {
      for i := 0 to entries.Length
        invariant S.FindFreeEntry(entries[..]) == S.FirstFree(entries[..], i)
      {
        if !entries[i].used {
          return i;
        }
      }
      return -1;
    }

    /** `memmove` inside the mapped file; the ranges may overlap. */
    method Memmove(dst: nat, src: nat, length: nat)
      requires dst + length <= mem.Length && src + length <= mem.Length
      modifies mem
      ensures mem[..] == Move(old(mem[..]), dst, src, length)
    {
      forall k | 0 <= k < length {
        mem[dst + k] := mem[src + k];
      }
      ghost var was := old(mem[..]);
      forall x | 0 <= x < mem.Length
        ensures mem[x] == Move(was, dst, src, length)[x]
      {
        if dst <= x < dst + length {
          assert mem[dst + (x - dst)] == was[src + (x - dst)];
        }
      }
    }

    /** `CompactCache`. */
    method CompactCache()
      requires Valid()
      modifies this`nextOffset, entries, mem
      ensures Valid() && State() == S.Compacted(old(State()))
    {
      hide LiveBytes, S.DistinctNames, Disjoint, S.UsedCount, MemAfter;
      ghost var s := State();
      S.ValidIsPlaceable(s);
      S.CompactedValid(s);
      LiveBytesZero(s.slots);
      assert entries[..] == SlotsAfter(base, s.slots, 0);
      var writeOffset := base;
      for i := 0 to entries.Length
        invariant Visited(s, i, writeOffset)
      {
        writeOffset := CompactEntry(s, i, writeOffset);
      }
      nextOffset := writeOffset;
    }

    /** The slots before `i` have been compacted from the state `s`, up to `writeOffset`. */
    ghost predicate Visited(s: S.Store, i: nat, writeOffset: nat)
      reads entries, mem
    {
      && Placeable(base, s.slots, |s.mem|) && entries.Length == |s.slots| && i <= |s.slots|
      && LiveBytes(s.slots, i) <= TotalBytes(s.slots)
      && writeOffset == base + LiveBytes(s.slots, i)
      && entries[..] == SlotsAfter(base, s.slots, i)
      && mem[..] == MemAfter(base, s.slots, s.mem, i)
    }

    /** One iteration of the loop in `CompactCache`. */
    method CompactEntry(ghost s: S.Store, i: nat, writeOffset: uint32) returns (next: uint32)
      requires entries as object != mem && S.Valid(s) && s.base == base && s.fileSize == fileSize && i < |s.slots|
      requires Visited(s, i, writeOffset)
      modifies entries, mem
      ensures Visited(s, i + 1, next)
    {
      hide S.Valid, LiveBytes, MemAfter, Move, Within, SlotsAfter;
      CompactionStep(s, i);
      SlotsAfterStep(base, s.slots, i);
      var e := entries[i];
      next := writeOffset;
      if e.used && e.length > 0 {
        var oldOffset := e.offset;
        var dataOffset := Sub32(oldOffset, base);
        if writeOffset != oldOffset {
          Memmove(base + Sub32(writeOffset, base), base + dataOffset, e.length);
          entries[i] := e.(offset := writeOffset);
        }
        next := Add32(writeOffset, e.length);
      }
    }

    /** The bytes `Put` reads: `length` of them from position `start` of a buffer. When the caller passes a pointer that
        `Get` handed out, the buffer is the mapped file itself, and what is read is what stands there after the
        compaction. */
    ghost function Given(data: array<byte>, start: nat, length: nat): (bytes: seq<byte>)
      requires Valid() && start + length <= data.Length
      reads this, entries, mem, data
      ensures |bytes| == length
    {
      S.CompactedValid(State());
      if data == mem then S.MakeRoom(State(), length).mem[start..start + length] else data[start..start + length]
    }

    /** What `memcpy` asks for: if the put gets that far, the range read does not overlap the range written. */
    ghost predicate NoOverlap(key: seq<byte>, data: array<byte>, start: nat, length: nat)
      requires Valid() && start + length <= data.Length
      reads this, entries, mem, data
    {
      data == mem && S.Put(State(), key, Given(data, start, length)).1 ==>
        var end := S.MakeRoom(State(), length).nextOffset; start + length <= end || end + length <= start
    }

    /** `Put`. A null pointer or a zero length is refused. */
    method Put(key: seq<byte>, data: array?<byte>, start: nat, length: uint32) returns (ok: bool)
      requires Valid()
      requires data != null ==> start + length <= data.Length && data as object != entries
      requires data != null ==> NoOverlap(key, data, start, length)
      modifies this`entryCount, this`nextOffset, entries, mem
      ensures Valid()
      ensures data == null ==> !ok && State() == old(State())
      ensures data != null ==> (State(), ok) == S.Put(old(State()), key, old(Given(data, start, length)))
    {
      hide S.Valid, S.Compacted, S.Appended, S.FindEntry, S.FindFreeEntry;
      ghost var s := State();
      if data == null || length == 0 {
        return false;
      }
      ghost var bytes := Given(data, start, length);
      S.PutValid(s, key, bytes);
      S.CompactedValid(s);
      var enough := MakeRoom(length);
      if !enough {
        return false;
      }
      ghost var c := State();
      assert data[start..start + length] == bytes;
      var idx := FindEntry(key);
      if idx == -1 {
        idx := FindFreeEntry();
        if idx == -1 {
          return false;
        }
        S.FreeSlot(c.slots);
        ValidFacts(c);
        entryCount := Add32(entryCount, 1);
      } else {
        S.MatchUsed(c.slots, key);
        ValidFacts(c);
      }
      Fill(idx, key, data, start, length, c);
      return true;
    }

    /** The beginning of `Put`: compact if the tail of the file is too short, and say whether it is long enough now. */
    method MakeRoom(length: uint32) returns (enough: bool)
      requires Valid()
      modifies this`nextOffset, entries, mem
      ensures Valid() && State() == S.MakeRoom(old(State()), length)
      ensures enough <==> length <= fileSize - nextOffset
    {
      hide S.DistinctNames, Disjoint, S.UsedCount, LiveBytes, S.Compacted, S.EntryOk;
      var availableSpace := Sub32(fileSize, nextOffset);
      if length > availableSpace {
        CompactCache();
        availableSpace := Sub32(fileSize, nextOffset);
      }
      return length <= availableSpace;
    }

    /** The end of `Put`: the header of slot `idx` and the bytes are written. */
    method Fill(idx: int, key: seq<byte>, data: array<byte>, start: nat, length: uint32, ghost c: S.Store)
      requires data as object != entries && entries as object != mem && 0 < length && start + length <= data.Length
      requires data == mem ==> start + length <= nextOffset || nextOffset + length <= start
      requires base <= nextOffset && nextOffset + length <= fileSize == mem.Length && 0 <= idx < entries.Length
      requires c == State().(entryCount := c.entryCount)
      requires entryCount == if c.slots[idx].used then c.entryCount else c.entryCount + 1
      modifies this`nextOffset, entries, mem
      ensures State() == S.Appended(c, idx, key, old(data[start..start + length]))
    {
      hide Checksum, S.KeyField;
      ghost var bytes := data[start..start + length];
      var checksum := CalculateChecksum(data, start, length);
      entries[idx] := Entry(S.KeyField(key), length, nextOffset, true, checksum);
      assert entries[..] == c.slots[idx := S.NewEntry(key, bytes, c.nextOffset)];
      assert base + Sub32(nextOffset, base) == nextOffset;
      CopyIn(base + Sub32(nextOffset, base), data, start, length);
      assert mem[..] == c.mem[..nextOffset] + bytes + c.mem[nextOffset + length..];
      nextOffset := Add32(nextOffset, length);
    }

    /** `memcpy` from the caller's buffer. */
    method CopyIn(dst: nat, data: array<byte>, start: nat, length: nat)
      requires start + length <= data.Length && dst + length <= mem.Length
      requires data == mem ==> start + length <= dst || dst + length <= start
      modifies mem
      ensures mem[..] == old(mem[..dst]) + old(data[start..start + length]) + old(mem[dst + length..])
    {
      forall k | 0 <= k < length {
        mem[dst + k] := data[start + k];
      }
      assert forall k :: dst <= k < dst + length ==> mem[k] == mem[dst + (k - dst)];
    }

    /** `Get`: the range of the mapped file the returned pointer and length denote. */
    method Get(key: seq<byte>) returns (found: bool, offset: nat, length: nat)
      requires Valid()
      ensures found == S.Get(State(), key).Found?
      ensures found ==> S.Get(State(), key) == S.Found(offset, length) && offset + length <= mem.Length
    {
      hide S.DistinctNames, Disjoint, S.UsedCount, LiveBytes, Checksum, S.FirstMatch;
      offset, length := 0, 0;
      var idx := FindEntry(key);
      if idx == -1 {
        return false, 0, 0;
      }
      var e := entries[idx];
      assert S.EntryOk(e, base, nextOffset);
      var start := base + Sub32(e.offset, base);
      var calculated := CalculateChecksum(mem, start, e.length);
      assert mem[..][start..start + e.length] == mem[start..start + e.length];
      if calculated != e.checksum {
        return false, 0, 0;
      }
      return true, start, e.length;
    }

    /** `Remove`. */
    method Remove(key: seq<byte>) returns (ok: bool)
      requires Valid()
      modifies this`entryCount, entries
      ensures Valid() && (State(), ok) == S.Remove(old(State()), key)
      ensures ok ==> S.IsZeroed(entries[S.FindEntry(old(entries[..]), key)]) && entryCount == old(entryCount) - 1
    {
      ghost var s := State();
      S.RemoveValid(s, key);
      var idx := FindEntry(key);
      if idx == -1 {
        return false;
      }
      S.UsedCountBound(s.slots, idx, |s.slots|);
      entries[idx] := S.EmptyEntry();
      entryCount := Sub32(entryCount, 1);
      return true;
    }

    /** `Clear`. */
    method Clear()
      requires Valid()
      modifies this, entries
      ensures Valid() && State() == S.Cleared(old(State()))
      ensures magicNumber == 0xC4C4E001 && version == 1 && nextOffset == base && entryCount == 0
      ensures forall i :: 0 <= i < entries.Length ==> S.IsZeroed(entries[i])
    {
      InitializeCache();
    }
  }

  const CACHE_MAGIC: uint32 := 0xC4C4E001
  const CACHE_VERSION: uint32 := 1
  const CACHE_MAX_ENTRIES: nat := 1024
  const CACHE_FILE_SIZE: uint32 := 1024 * 1024 * 100
  const HEADER_SIZE: nat := 32
  const ENTRY_HEADER_SIZE: nat := 528

  /** A file as `ftruncate` leaves it, with the constants of m_v8_shared_cache.h for its layout: header, slot table and
      data area, whose start is computed from the sizes of the headers. */
  ghost predicate CacheFile(file: S.Store) {
    && file.base == HEADER_SIZE + ENTRY_HEADER_SIZE * CACHE_MAX_ENTRIES && file.fileSize == CACHE_FILE_SIZE
    && |file.slots| == CACHE_MAX_ENTRIES && |file.mem| == file.fileSize
    && file.entryCount < 0x1_0000_0000 && file.nextOffset < 0x1_0000_0000
  }

  /** `SharedCache::Instance`, on the first use in a process. */
  method Instance(file: S.Store, magicNumber: uint32, version: uint32) returns (cache: SharedCache)
    requires CacheFile(file)
    ensures fresh(cache)
    ensures cache.Valid() <==> (magicNumber == 0xC4C4E001 && version == 1 ==> S.Valid(file))
    ensures cache.State() == if magicNumber == 0xC4C4E001 && version == 1 then file else S.Cleared(file)
    ensures cache.base == 540704 && cache.fileSize == 104857600 && cache.entries.Length == 1024
  {
    cache := new SharedCache(file, magicNumber, version);
  }
}
