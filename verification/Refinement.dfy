/** The cache against the bounded map it is meant to be, over whole runs of operations.

    In every run, whatever the order of the blobs in the file, presence, lengths and checksums follow the map. When
    the bytes themselves follow it is the subject of `ExactRuns` and `UnsafeRuns`. */
module Refinement {
  import opened Words
  import opened Compaction
  import opened Checksums
  import opened Store
  import opened Dictionary

  // ----- runs of the cache

  ghost function StoreStep(s: Store, op: Op): (r: (Store, Outcome))
    requires Valid(s)
    ensures Valid(r.0)
  {
    match op
    case PutOp(key, data) =>
      PutValid(s, key, data);
      var (t, ok) := Put(s, key, data);
      (t, Stored(ok))
    case GetOp(key) =>
      (s, Fetched(FetchedBytes(s, key)))
    case RemoveOp(key) =>
      RemoveValid(s, key);
      var (t, ok) := Remove(s, key);
      (t, Removed(ok))
    case ClearOp =>
      ClearedValid(s);
      (Cleared(s), AllCleared)
  }

  /** What the pointer and the length handed out by `Get` denote at that moment. */
  ghost function FetchedBytes(s: Store, key: seq<byte>): Option<seq<byte>>
    requires Valid(s)
  {
    match Get(s, key)
    case NotFound => None
    case Found(offset, length) =>
      assert EntryOk(s.slots[FindEntry(s.slots, key)], s.base, s.nextOffset);
      Some(s.mem[offset..offset + length])
  }

  ghost function StoreRun(s: Store, ops: seq<Op>): (r: (Store, seq<Outcome>))
    requires Valid(s)
    ensures Valid(r.0) && |r.1| == |ops|
    decreases |ops|
  {
    if ops == [] then (s, []) else
      var (t, o) := StoreStep(s, ops[0]);
      var (u, os) := StoreRun(t, ops[1..]);
      (u, [o] + os)
  }

  ghost function DictRun(m: Dict, ops: seq<Op>, capacity: nat, slotCount: nat): (r: (Dict, seq<Outcome>))
    ensures |r.1| == |ops|
    decreases |ops|
  {
    if ops == [] then (m, []) else
      var (n, o) := DictStep(m, ops[0], capacity, slotCount);
      var (u, os) := DictRun(n, ops[1..], capacity, slotCount);
      (u, [o] + os)
  }

  /** The size of the data area. */
  function Capacity(s: Store): nat {
    if s.base <= s.fileSize then s.fileSize - s.base else 0
  }

  // ----- the relation

  /** A used slot names an entry of the map and agrees with it on length and checksum. */
  ghost predicate SlotTracks(e: Entry, m: Dict) {
    e.used ==> Name(e.key) in m && |m[Name(e.key)]| == e.length && Checksum(m[Name(e.key)]) == e.checksum
  }

  ghost predicate HasSlot(slots: seq<Entry>, k: seq<byte>) {
    exists i :: 0 <= i < |slots| && slots[i].used && Name(slots[i].key) == k
  }

  /** The slot table agrees with the map. */
  ghost predicate RowsTrack(slots: seq<Entry>, m: Dict) {
    && (forall i :: 0 <= i < |slots| ==> SlotTracks(slots[i], m))
    && (forall k :: k in m ==> HasSlot(slots, k))
  }

  /** The header and the slot table agree with the map. */
  ghost predicate Tracks(s: Store, m: Dict) {
    RowsTrack(s.slots, m) && |m| == s.entryCount && DictBytes(m) == TotalBytes(s.slots)
  }

  /** The bytes of the blob are those in the map. */
  ghost predicate SlotHolds(mem: seq<byte>, e: Entry, m: Dict) {
    e.used ==> e.offset + e.length <= |mem| && Name(e.key) in m && mem[e.offset..e.offset + e.length] == m[Name(e.key)]
  }

  ghost predicate Holds(s: Store, m: Dict) {
    forall i :: 0 <= i < |s.slots| ==> SlotHolds(s.mem, s.slots[i], m)
  }

  /** The outcome of an operation in a run where blobs may have been damaged: the map's, except that a fetch may
      fail, or bring other bytes of the same length and checksum. */
  ghost predicate Plausible(actual: Outcome, intended: Outcome) {
    match actual
    case Fetched(None) => intended.Fetched?
    case Fetched(Some(b)) =>
      && intended.Fetched? && intended.found.Some?
      && |b| == |intended.found.value| && Checksum(b) == Checksum(intended.found.value)
    case _ => actual == intended
  }

  // ----- one step, no hypothesis on the order of blobs

  lemma PresentIff(s: Store, m: Dict, key: seq<byte>)
    requires Valid(s) && Tracks(s, m)
    ensures Name(key) in m <==> FindEntry(s.slots, key) != -1
    ensures Name(key) in m ==> var e := s.slots[FindEntry(s.slots, key)]; e.used && Name(e.key) == Name(key)
  {
    var i := FindEntry(s.slots, key);
    if i != -1 {
      MatchesIffName(s.slots[i], key);
      assert SlotTracks(s.slots[i], m);
    } else if Name(key) in m {
      assert HasSlot(s.slots, Name(key));
      var j :| 0 <= j < |s.slots| && s.slots[j].used && Name(s.slots[j].key) == Name(key);
      FindEntryIff(s.slots, key, j);
    }
  }

  /** Rows differing in offsets only track the same map. */
  lemma RowsMoved(slots: seq<Entry>, slots': seq<Entry>, m: Dict)
    requires RowsTrack(slots, m) && |slots| == |slots'|
    requires forall i :: 0 <= i < |slots| ==> slots'[i] == slots[i].(offset := slots'[i].offset)
    ensures RowsTrack(slots', m)
  {
    hide Name, Checksum;
    forall i | 0 <= i < |slots'|
      ensures SlotTracks(slots'[i], m)
    {
      assert SlotTracks(slots[i], m);
    }
    forall k | k in m
      ensures HasSlot(slots', k)
    {
      assert HasSlot(slots, k);
      var i :| 0 <= i < |slots| && slots[i].used && Name(slots[i].key) == k;
      assert slots'[i].used && Name(slots'[i].key) == k;
    }
  }

  lemma CompactedTracks(s: Store, m: Dict)
    requires Valid(s) && Tracks(s, m)
    ensures Tracks(Compacted(s), m)
  {
    CompactedSums(s, |s.slots|);
    hide Name, DictBytes, MemAfter, LiveBytes, UsedCount, Checksum, RowsTrack;
    RowsMoved(s.slots, Compacted(s).slots, m);
  }

  /** Writing the row of a name, where no other row carries it. */
  lemma RowsAfterPut(slots: seq<Entry>, m: Dict, i: nat, e: Entry, name: seq<byte>, data: seq<byte>)
    requires RowsTrack(slots, m) && i < |slots| && OnlyAt(slots, i, name)
    requires e.used && Name(e.key) == name && e.length == |data| && e.checksum == Checksum(data)
    requires slots[i].used ==> Name(slots[i].key) == name
    ensures RowsTrack(slots[i := e], m[name := data])
  {
    hide Name, Checksum;
    var t, m' := slots[i := e], m[name := data];
    forall j | 0 <= j < |t|
      ensures SlotTracks(t[j], m')
    {
      assert SlotTracks(slots[j], m);
    }
    forall k | k in m'
      ensures HasSlot(t, k)
    {
      if k == name {
        assert t[i].used && Name(t[i].key) == k;
      } else {
        OtherRow(slots, m, k, i, e);
      }
    }
  }

  lemma OtherRow(slots: seq<Entry>, m: Dict, k: seq<byte>, i: nat, e: Entry)
    requires RowsTrack(slots, m) && k in m && i < |slots|
    requires slots[i].used ==> Name(slots[i].key) != k
    ensures HasSlot(slots[i := e], k)
  {
    hide Name;
    assert HasSlot(slots, k);
    var j :| 0 <= j < |slots| && slots[j].used && Name(slots[j].key) == k;
    var t := slots[i := e];
    assert t[j].used && Name(t[j].key) == k;
  }

  lemma AppendedTracks(s: Store, m: Dict, i: nat, key: seq<byte>, data: seq<byte>)
    requires Valid(s) && Tracks(s, m) && i < |s.slots| && s.nextOffset + |data| <= s.fileSize
    requires i == SlotFor(s.slots, key)
    ensures Tracks(Appended(s, i, key, data), m[Name(key) := data])
  {
    hide Name, DictBytes, LiveBytes, Checksum, FirstMatch, FirstFree;
    var e := NewEntry(key, data, s.nextOffset);
    PresentIff(s, m, key);
    NameOfKeyField(key);
    OthersDiffer(s.slots, key);
    RowsAfterPut(s.slots, m, i, e, Name(key), data);
    DictBytesPut(m, Name(key), data);
    LiveBytesUpdate(s.slots, i, e, |s.slots|);
    assert SlotTracks(s.slots[i], m);
  }

  lemma PutTracks(s: Store, m: Dict, key: seq<byte>, data: seq<byte>)
    requires Valid(s) && Tracks(s, m)
    ensures var (m', o) := DictStep(m, PutOp(key, data), Capacity(s), |s.slots|);
      Tracks(Put(s, key, data).0, m') && o == Stored(Put(s, key, data).1)
  {
    PresentIff(s, m, key);
    PutSucceedsIff(s, key, data);
    CompactedTracks(s, m);
    CompactedValid(s);
    var c := MakeRoom(s, |data|);
    if Put(s, key, data).1 {
      AppendedTracks(c, m, SlotFor(c.slots, key), key, data);
    }
  }

  /** Clearing the row of a name, where no other row carries it. */
  lemma RowsAfterRemove(slots: seq<Entry>, m: Dict, i: nat, name: seq<byte>)
    requires RowsTrack(slots, m) && i < |slots| && OnlyAt(slots, i, name)
    requires slots[i].used ==> Name(slots[i].key) == name
    ensures RowsTrack(slots[i := EmptyEntry()], m - {name})
  {
    hide Name, Checksum;
    var t, m' := slots[i := EmptyEntry()], m - {name};
    forall j | 0 <= j < |t|
      ensures SlotTracks(t[j], m')
    {
      assert SlotTracks(slots[j], m);
    }
    forall k | k in m'
      ensures HasSlot(t, k)
    {
      OtherRow(slots, m, k, i, EmptyEntry());
    }
  }

  lemma RemoveTracks(s: Store, m: Dict, key: seq<byte>)
    requires Valid(s) && Tracks(s, m)
    ensures Tracks(Remove(s, key).0, m - {Name(key)}) && (Remove(s, key).1 <==> Name(key) in m)
  {
    hide Name, DictBytes, LiveBytes, UsedCount, Checksum, FirstMatch, FirstFree, Disjoint;
    var i, name := FindEntry(s.slots, key), Name(key);
    PresentIff(s, m, key);
    if i == -1 {
      assert m - {name} == m;
    } else {
      OthersDiffer(s.slots, key);
      hide DistinctNames;
      RowsAfterRemove(s.slots, m, i, name);
      hide OnlyAt;
      assert SlotTracks(s.slots[i], m);
      hide RowsTrack;
      DictBytesWithout(m, name);
      LiveBytesUpdate(s.slots, i, EmptyEntry(), |s.slots|);
      OneKeyLess(m, name);
    }
  }

  lemma OneKeyLess(m: Dict, k: seq<byte>)
    requires k in m
    ensures |m - {k}| == |m| - 1
  {
    assert m.Keys == (m - {k}).Keys + {k};
  }

  lemma GetPlausible(s: Store, m: Dict, key: seq<byte>)
    requires Valid(s) && Tracks(s, m)
    ensures Plausible(Fetched(FetchedBytes(s, key)), DictStep(m, GetOp(key), Capacity(s), |s.slots|).1)
  {
    hide Name, Checksum, FirstMatch, DictBytes, LiveBytes, UsedCount, Disjoint, DistinctNames;
    PresentIff(s, m, key);
    var i := FindEntry(s.slots, key);
    if i != -1 {
      assert SlotTracks(s.slots[i], m) && EntryOk(s.slots[i], s.base, s.nextOffset);
      hide RowsTrack;
    }
  }

  lemma StepTracks(s: Store, m: Dict, op: Op)
    requires Valid(s) && Tracks(s, m)
    ensures var (t, o) := StoreStep(s, op);
      var (m', o') := DictStep(m, op, Capacity(s), |s.slots|);
      Tracks(t, m') && Plausible(o, o') && SameShape(s, t)
  {
    match op
    case PutOp(key, data) => hide Valid, Tracks, Name, Fits, Put; PutTracks(s, m, key, data); PutShape(s, key, data);
    case GetOp(key) => hide Valid, Tracks, FetchedBytes, Name; GetPlausible(s, m, key);
    case RemoveOp(key) => hide Valid, Tracks, Name, Remove; RemoveTracks(s, m, key); RemoveShape(s, key);
    case ClearOp => hide Valid, Tracks, DictBytes; ClearedTracks(s);
  }

  lemma PutShape(s: Store, key: seq<byte>, data: seq<byte>)
    requires Valid(s)
    ensures SameShape(s, Put(s, key, data).0)
  {
  }

  lemma RemoveShape(s: Store, key: seq<byte>)
    requires Valid(s)
    ensures SameShape(s, Remove(s, key).0)
  {
    hide FirstMatch, LiveBytes, Disjoint, DistinctNames;
  }

  lemma ClearedTracks(s: Store)
    ensures Tracks(Cleared(s), map[])
  {
    AllUnused(Cleared(s).slots, |s.slots|);
  }

  ghost predicate SameShape(s: Store, t: Store) {
    s.fileSize == t.fileSize && s.base == t.base && |s.slots| == |t.slots|
  }

  /** Every run, including those whose compactions damage blobs: the map's outcomes, up to what a fetch brings. */
  lemma {:induction false} EveryRunPlausible(s: Store, m: Dict, ops: seq<Op>)
    requires Valid(s) && Tracks(s, m)
    ensures var (t, os) := StoreRun(s, ops);
      var (m', os') := DictRun(m, ops, Capacity(s), |s.slots|);
      Tracks(t, m') && AllPlausible(os, os')
    decreases |ops|
  {
    hide Tracks, Plausible, StoreStep, DictStep, Valid;
    if ops != [] {
      var (t, o) := StoreStep(s, ops[0]);
      var (n, o') := DictStep(m, ops[0], Capacity(s), |s.slots|);
      var (u, os) := StoreRun(t, ops[1..]);
      var (n', os') := DictRun(n, ops[1..], Capacity(s), |s.slots|);
      assert StoreRun(s, ops) == (u, [o] + os);
      assert DictRun(m, ops, Capacity(s), |s.slots|) == (n', [o'] + os');
      hide StoreRun, DictRun, AllPlausible;
      StepTracks(s, m, ops[0]);
      EveryRunPlausible(t, n, ops[1..]);
      PlausibleCons(o, o', os, os');
    }
  }

  ghost predicate AllPlausible(os: seq<Outcome>, os': seq<Outcome>) {
    |os| == |os'| && forall i :: 0 <= i < |os| ==> Plausible(os[i], os'[i])
  }

  lemma PlausibleCons(o: Outcome, o': Outcome, os: seq<Outcome>, os': seq<Outcome>)
    requires Plausible(o, o') && AllPlausible(os, os')
    ensures AllPlausible([o] + os, [o'] + os')
  {
  }
}
