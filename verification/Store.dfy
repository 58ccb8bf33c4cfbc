/** `SharedCache` of m_v8_shared_cache.cc as a value: the header, the slot table and the bytes of the mapped file,
    and what `Put`, `Get`, `Remove`, `Clear` and `CompactCache` make of them. Slot count, file size and the start
    of the data area are parameters; the source fixes them at 1024, 104857600 and 540704. */
module Store {
  import opened Words
  import opened CStrings
  import opened Compaction
  import opened Checksums

  const KEY_FIELD: nat := 256

  datatype Store = Store(base: nat, fileSize: nat, slots: seq<Entry>, entryCount: nat, nextOffset: nat, mem: seq<byte>)

  datatype Lookup = NotFound | Found(offset: nat, length: nat)

  /** The part of a key that counts: up to its first zero, at most 255 characters. */
  function Name(key: seq<byte>): seq<byte> {
    Cut(key, KEY_FIELD - 1)
  }

  /** The test in `FindEntry`. */
  predicate Matches(e: Entry, key: seq<byte>) {
    e.used && StrncmpEqual(e.key, key, KEY_FIELD - 1)
  }

  function FirstMatch(slots: seq<Entry>, key: seq<byte>, i: nat): (r: int)
    requires i <= |slots|
    ensures r == -1 || i <= r < |slots|
    ensures r != -1 ==> Matches(slots[r], key)
    ensures forall k :: i <= k < (if r == -1 then |slots| else r) ==> !Matches(slots[k], key)
    decreases |slots| - i
  {
    if i == |slots| then -1 else if Matches(slots[i], key) then i else FirstMatch(slots, key, i + 1)
  }

  function FirstFree(slots: seq<Entry>, i: nat): (r: int)
    requires i <= |slots|
    ensures r == -1 || i <= r < |slots|
    ensures r != -1 ==> !slots[r].used
    ensures forall k :: i <= k < (if r == -1 then |slots| else r) ==> slots[k].used
    decreases |slots| - i
  {
    if i == |slots| then -1 else if !slots[i].used then i else FirstFree(slots, i + 1)
  }

  function FindEntry(slots: seq<Entry>, key: seq<byte>): int {
    FirstMatch(slots, key, 0)
  }

  function FindFreeEntry(slots: seq<Entry>): int {
    FirstFree(slots, 0)
  }

  /** An entry header after `memset(.., 0, ..)`. */
  function EmptyEntry(): Entry {
    Entry(seq(KEY_FIELD, _ => 0), 0, 0, false, 0)
  }

  /** Unused, without length, offset and checksum, and 256 zeros for a key. */
  ghost predicate IsZeroed(e: Entry) {
    && !e.used && e.length == 0 && e.offset == 0 && e.checksum == 0
    && |e.key| == 256 && (forall k :: 0 <= k < 256 ==> e.key[k] == 0)
  }

  /** The key as stored: `strncpy` of 255 characters and a final zero. */
  function KeyField(key: seq<byte>): (f: seq<byte>)
    ensures |f| == KEY_FIELD
  {
    Strncpy(key, KEY_FIELD - 1) + [0]
  }

  function NewEntry(key: seq<byte>, data: seq<byte>, offset: nat): Entry {
    Entry(KeyField(key), |data|, offset, true, Checksum(data))
  }

  function Blob(mem: seq<byte>, e: Entry): seq<byte>
    requires e.offset + e.length <= |mem|
  {
    mem[e.offset..e.offset + e.length]
  }

  function UsedCount(slots: seq<Entry>, j: nat): (c: nat)
    requires j <= |slots|
    ensures c <= j
  {
    if j == 0 then 0 else UsedCount(slots, j - 1) + (if slots[j - 1].used then 1 else 0)
  }

  // ----- the invariant of every reachable state

  /** A used slot describes a non-empty blob in the data area, left of `next`. */
  ghost predicate EntryOk(e: Entry, base: nat, next: nat) {
    e.used ==> e.length > 0 && base <= e.offset && e.offset + e.length <= next
  }

  ghost predicate DistinctNames(slots: seq<Entry>) {
    forall i, j :: 0 <= i < j < |slots| && slots[i].used && slots[j].used ==> Name(slots[i].key) != Name(slots[j].key)
  }

  ghost predicate Valid(s: Store) {
    && |s.mem| == s.fileSize < 0x1_0000_0000 && |s.slots| < 0x1_0000_0000
    && s.base <= s.nextOffset <= s.fileSize
    && (forall i :: 0 <= i < |s.slots| ==> EntryOk(s.slots[i], s.base, s.nextOffset))
    && Disjoint(s.slots)
    && DistinctNames(s.slots)
    && s.entryCount == UsedCount(s.slots, |s.slots|)
    && s.base + TotalBytes(s.slots) <= s.nextOffset
  }

  lemma ValidIsPlaceable(s: Store)
    requires Valid(s)
    ensures Placeable(s.base, s.slots, |s.mem|)
  {
    forall j | 0 <= j < |s.slots| && Live(s.slots[j])
      ensures s.slots[j].offset + s.slots[j].length <= |s.mem|
    {
      assert EntryOk(s.slots[j], s.base, s.nextOffset);
    }
  }

  // ----- the operations

  /** `InitializeCache`: the bytes of the data area stay. */
  function Cleared(s: Store): Store {
    s.(slots := seq(|s.slots|, _ => EmptyEntry()), entryCount := 0, nextOffset := s.base)
  }

  ghost function Compacted(s: Store): Store
    requires Valid(s)
  {
    ValidIsPlaceable(s);
    s.(slots := SlotsAfter(s.base, s.slots, |s.slots|),
       mem := MemAfter(s.base, s.slots, s.mem, |s.slots|),
       nextOffset := s.base + TotalBytes(s.slots))
  }

  /** `Put` compacts only when the tail of the file is too short. */
  ghost function MakeRoom(s: Store, length: nat): Store
    requires Valid(s)
  {
    if length > s.fileSize - s.nextOffset then Compacted(s) else s
  }

  function SlotFor(slots: seq<Entry>, key: seq<byte>): int {
    var i := FindEntry(slots, key);
    if i == -1 then FindFreeEntry(slots) else i
  }

  function Appended(s: Store, i: nat, key: seq<byte>, data: seq<byte>): Store
    requires i < |s.slots| && s.nextOffset + |data| <= |s.mem|
  {
    s.(slots := s.slots[i := NewEntry(key, data, s.nextOffset)],
       entryCount := if s.slots[i].used then s.entryCount else s.entryCount + 1,
       mem := s.mem[..s.nextOffset] + data + s.mem[s.nextOffset + |data|..],
       nextOffset := s.nextOffset + |data|)
  }

  ghost function Put(s: Store, key: seq<byte>, data: seq<byte>): (Store, bool)
    requires Valid(s)
  {
    if data == [] then (s, false) else
      var c := MakeRoom(s, |data|);
      CompactedValid(s);
      var i := SlotFor(c.slots, key);
      if |data| > c.fileSize - c.nextOffset || i == -1 then (c, false) else (Appended(c, i, key, data), true)
  }

  function Get(s: Store, key: seq<byte>): Lookup
    requires Valid(s)
  {
    var i := FindEntry(s.slots, key);
    if i == -1 then NotFound else
      var e := s.slots[i];
      assert EntryOk(e, s.base, s.nextOffset);
      if Checksum(Blob(s.mem, e)) != e.checksum then NotFound else Found(e.offset, e.length)
  }

  ghost function Remove(s: Store, key: seq<byte>): (Store, bool)
    requires Valid(s)
  {
    var i := FindEntry(s.slots, key);
    if i == -1 then (s, false) else
      UsedCountBound(s.slots, i, |s.slots|);
      (s.(slots := s.slots[i := EmptyEntry()], entryCount := s.entryCount - 1), true)
  }

  // ----- names

  lemma MatchesIffName(e: Entry, key: seq<byte>)
    ensures Matches(e, key) <==> e.used && Name(e.key) == Name(key)
  {
    StrncmpIffCut(e.key, key, KEY_FIELD - 1);
  }

  lemma NameOfKeyField(key: seq<byte>)
    ensures Name(KeyField(key)) == Name(key)
  {
    CutOfStrncpy(key, [0], KEY_FIELD - 1);
  }

  /** With distinct names, the search finds the slot of that name and no other. */
  lemma FindEntryIff(slots: seq<Entry>, key: seq<byte>, i: nat)
    requires i < |slots| && DistinctNames(slots)
    ensures FindEntry(slots, key) == i <==> slots[i].used && Name(slots[i].key) == Name(key)
  {
    hide StrncmpEqual, Cut;
    var r := FindEntry(slots, key);
    MatchesIffName(slots[i], key);
    if r != -1 {
      MatchesIffName(slots[r], key);
    }
  }

  // ----- counting

  lemma {:induction false} UsedCountUpdate(slots: seq<Entry>, i: nat, e: Entry, j: nat)
    requires i < |slots| && j <= |slots|
    ensures UsedCount(slots[i := e], j)
         == UsedCount(slots, j) + (if i < j then (if e.used then 1 else 0) - (if slots[i].used then 1 else 0) else 0)
    decreases j
  {
    if j > 0 {
      UsedCountUpdate(slots, i, e, j - 1);
    }
  }

  lemma {:induction false} UsedCountSame(slots: seq<Entry>, slots': seq<Entry>, j: nat)
    requires j <= |slots| == |slots'|
    requires forall k :: 0 <= k < j ==> slots[k].used == slots'[k].used
    ensures UsedCount(slots, j) == UsedCount(slots', j)
  {
    if j > 0 {
      UsedCountSame(slots, slots', j - 1);
    }
  }

  lemma {:induction false} UsedCountBound(slots: seq<Entry>, i: nat, j: nat)
    requires i < j <= |slots|
    ensures slots[i].used ==> UsedCount(slots, j) >= 1
    ensures !slots[i].used ==> UsedCount(slots, j) < j
    decreases j
  {
    if i < j - 1 {
      UsedCountBound(slots, i, j - 1);
    }
  }

  lemma FreeSlot(slots: seq<Entry>)
    requires FindFreeEntry(slots) != -1
    ensures 0 <= FindFreeEntry(slots) < |slots| && !slots[FindFreeEntry(slots)].used
    ensures UsedCount(slots, |slots|) < |slots|
  {
    UsedCountBound(slots, FindFreeEntry(slots), |slots|);
  }

  lemma MatchUsed(slots: seq<Entry>, key: seq<byte>)
    requires FindEntry(slots, key) != -1
    ensures 0 <= FindEntry(slots, key) < |slots| && slots[FindEntry(slots, key)].used
  {
  }

  lemma {:induction false} AllUnused(slots: seq<Entry>, j: nat)
    requires j <= |slots| && forall k :: 0 <= k < |slots| ==> !slots[k].used
    ensures UsedCount(slots, j) == 0 && LiveBytes(slots, j) == 0
  {
    if j > 0 {
      AllUnused(slots, j - 1);
    }
  }

  lemma {:induction false} AllUsed(slots: seq<Entry>, j: nat)
    requires j <= |slots| && forall k :: 0 <= k < |slots| ==> slots[k].used
    ensures UsedCount(slots, j) == j
  {
    if j > 0 {
      AllUsed(slots, j - 1);
    }
  }

  // ----- every operation keeps the invariant, whatever the order of blobs in the file

  lemma ClearedValid(s: Store)
    requires |s.mem| == s.fileSize < 0x1_0000_0000 && |s.slots| < 0x1_0000_0000 && s.base <= s.fileSize
    ensures Valid(Cleared(s)) && Cleared(s).nextOffset == s.base && Cleared(s).entryCount == 0
    ensures |Cleared(s).slots| == |s.slots| && forall i :: 0 <= i < |s.slots| ==> IsZeroed(Cleared(s).slots[i])
    ensures Cleared(s).mem == s.mem
  {
    AllUnused(Cleared(s).slots, |s.slots|);
  }

  /** Compaction changes offsets only. */
  lemma CompactedSums(s: Store, j: nat)
    requires Valid(s) && j <= |s.slots|
    ensures LiveBytes(Compacted(s).slots, j) == LiveBytes(s.slots, j)
    ensures UsedCount(Compacted(s).slots, j) == UsedCount(s.slots, j)
  {
    LiveBytesSame(Compacted(s).slots, s.slots, j);
    UsedCountSame(Compacted(s).slots, s.slots, j);
  }

  lemma CompactedLayout(s: Store)
    requires Valid(s)
    ensures var c := SlotsAfter(s.base, s.slots, |s.slots|);
      && Disjoint(c)
      && forall i :: 0 <= i < |c| ==> EntryOk(c[i], s.base, s.base + TotalBytes(s.slots))
  {
    var n := |s.slots|;
    var c := SlotsAfter(s.base, s.slots, n);
    forall i | 0 <= i < n
      ensures EntryOk(c[i], s.base, s.base + TotalBytes(s.slots))
    {
      assert EntryOk(s.slots[i], s.base, s.nextOffset);
      LiveBytesMonotone(s.slots, i + 1, n);
    }
    forall i, j | 0 <= i < j < n && Live(c[i]) && Live(c[j])
      ensures Apart(c[i], c[j])
    {
      LiveBytesMonotone(s.slots, i + 1, j);
    }
  }

  /** Compaction keeps the invariant, never raises `nextOffset`, and leaves it at `base` plus the live bytes with
      every live blob exactly in its place. */
  lemma CompactedValid(s: Store)
    requires Valid(s)
    ensures Valid(Compacted(s))
    ensures Compacted(s).nextOffset == s.base + TotalBytes(Compacted(s).slots) <= s.nextOffset
    ensures forall j :: 0 <= j < |s.slots| && Live(s.slots[j]) ==> Slack(s.base, Compacted(s).slots, j) == 0
  {
    hide LiveBytes, UsedCount, Cut, Disjoint, MemAfter;
    CompactedLayout(s);
    CompactedSums(s, |s.slots|);
    forall j | 0 <= j < |s.slots| && Live(s.slots[j])
      ensures Slack(s.base, Compacted(s).slots, j) == 0
    {
      CompactedSums(s, j);
    }
  }

  lemma AppendedValid(s: Store, i: nat, key: seq<byte>, data: seq<byte>)
    requires Valid(s) && i < |s.slots| && data != [] && s.nextOffset + |data| <= s.fileSize
    requires i == SlotFor(s.slots, key)
    ensures Valid(Appended(s, i, key, data))
  {
    var e := NewEntry(key, data, s.nextOffset);
    var t := Appended(s, i, key, data);
    UsedCountUpdate(s.slots, i, e, |s.slots|);
    LiveBytesUpdate(s.slots, i, e, |s.slots|);
    forall k | 0 <= k < |s.slots|
      ensures EntryOk(t.slots[k], t.base, t.nextOffset)
    {
      assert EntryOk(s.slots[k], s.base, s.nextOffset);
    }
    forall a, b | 0 <= a < b < |s.slots| && Live(t.slots[a]) && Live(t.slots[b])
      ensures Apart(t.slots[a], t.slots[b])
    {
      assert EntryOk(s.slots[a], s.base, s.nextOffset) && EntryOk(s.slots[b], s.base, s.nextOffset);
    }
    NewNameDistinct(s, i, key, e);
  }

  /** No slot but the one chosen carries the name. */
  ghost predicate OnlyAt(slots: seq<Entry>, i: int, name: seq<byte>) {
    forall k :: 0 <= k < |slots| && k != i && slots[k].used ==> Name(slots[k].key) != name
  }

  lemma OthersDiffer(slots: seq<Entry>, key: seq<byte>)
    requires DistinctNames(slots)
    ensures OnlyAt(slots, SlotFor(slots, key), Name(key)) && OnlyAt(slots, FindEntry(slots, key), Name(key))
  {
    hide Cut, StrncmpEqual, FirstFree, FirstMatch;
    forall k | 0 <= k < |slots| && slots[k].used && k != FindEntry(slots, key)
      ensures Name(slots[k].key) != Name(key)
    {
      FindEntryIff(slots, key, k);
    }
  }

  lemma NewNameDistinct(s: Store, i: nat, key: seq<byte>, e: Entry)
    requires Valid(s) && i < |s.slots| && i == SlotFor(s.slots, key) && e.key == KeyField(key)
    ensures DistinctNames(s.slots[i := e])
  {
    hide Cut;
    NameOfKeyField(key);
    OthersDiffer(s.slots, key);
  }

  /** `Put` keeps the invariant whether it succeeds or fails. */
  lemma PutValid(s: Store, key: seq<byte>, data: seq<byte>)
    requires Valid(s)
    ensures Valid(Put(s, key, data).0)
  {
    CompactedValid(s);
    var c := MakeRoom(s, |data|);
    var i := SlotFor(c.slots, key);
    if data != [] && |data| <= c.fileSize - c.nextOffset && i != -1 {
      AppendedValid(c, i, key, data);
    }
  }

  lemma RemoveValid(s: Store, key: seq<byte>)
    requires Valid(s)
    ensures Valid(Remove(s, key).0)
    ensures Remove(s, key).1 <==> FindEntry(s.slots, key) != -1
    ensures !Remove(s, key).1 ==> Remove(s, key).0 == s
    ensures Remove(s, key).1 ==>
      var (i, t) := (FindEntry(s.slots, key), Remove(s, key).0);
      && IsZeroed(t.slots[i]) && t.slots == s.slots[i := t.slots[i]] && t.entryCount == s.entryCount - 1
      && t.nextOffset == s.nextOffset && t.mem == s.mem
  {
    var i := FindEntry(s.slots, key);
    if i != -1 {
      UsedCountBound(s.slots, i, |s.slots|);
      UsedCountUpdate(s.slots, i, EmptyEntry(), |s.slots|);
      LiveBytesUpdate(s.slots, i, EmptyEntry(), |s.slots|);
      var t := s.slots[i := EmptyEntry()];
      forall k | 0 <= k < |t|
        ensures EntryOk(t[k], s.base, s.nextOffset)
      {
        assert EntryOk(s.slots[k], s.base, s.nextOffset);
      }
    }
  }

  // ----- exactly when Put succeeds

  /** `Put` succeeds exactly when there is data, the live bytes (the key's old blob included) and the data fit in the
      data area, and the key is present or a slot is free. How fragmented the file is never matters. */
  lemma PutSucceedsIff(s: Store, key: seq<byte>, data: seq<byte>)
    requires Valid(s)
    ensures Put(s, key, data).1
       <==> && data != []
            && TotalBytes(s.slots) + |data| <= s.fileSize - s.base
            && (FindEntry(s.slots, key) != -1 || s.entryCount < |s.slots|)
  {
    CompactedValid(s);
    CompactedSums(s, |s.slots|);
    SlotForCompacted(s, key);
    SlotIff(s, key);
    hide LiveBytes, UsedCount, Disjoint, DistinctNames, FirstMatch, FirstFree, MemAfter, EntryOk;
    var c := MakeRoom(s, |data|);
    assert SlotFor(c.slots, key) == SlotFor(s.slots, key);
  }

  /** A slot can be had when the key is present or the table is not full. */
  lemma SlotIff(s: Store, key: seq<byte>)
    requires Valid(s)
    ensures SlotFor(s.slots, key) != -1 <==> FindEntry(s.slots, key) != -1 || s.entryCount < |s.slots|
  {
    var f := FindFreeEntry(s.slots);
    if f == -1 {
      AllUsed(s.slots, |s.slots|);
    } else {
      UsedCountBound(s.slots, f, |s.slots|);
    }
  }

  /** Compaction changes offsets only: every search gives the same slot as before. */
  lemma SlotForCompacted(s: Store, key: seq<byte>)
    requires Valid(s)
    ensures FindEntry(Compacted(s).slots, key) == FindEntry(s.slots, key)
    ensures FindFreeEntry(Compacted(s).slots) == FindFreeEntry(s.slots)
  {
    SameSearch(s.slots, Compacted(s).slots, key, 0);
  }

  predicate SameKey(a: Entry, b: Entry) {
    a.used == b.used && a.key == b.key
  }

  lemma {:induction false} SameSearch(slots: seq<Entry>, slots': seq<Entry>, key: seq<byte>, i: nat)
    requires i <= |slots| == |slots'|
    requires forall k :: 0 <= k < |slots| ==> SameKey(slots[k], slots'[k])
    ensures FirstMatch(slots, key, i) == FirstMatch(slots', key, i)
    ensures FirstFree(slots, i) == FirstFree(slots', i)
    decreases |slots| - i
  {
    if i < |slots| {
      SameSearch(slots, slots', key, i + 1);
    }
  }
}
