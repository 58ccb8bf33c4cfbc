/** When the cache is exactly the bounded map, contents included. The one thing that can break it is a compaction
    that has to move a blob to the right, so an operation is safe if it compacts no such blob that it does not
    replace itself. `UnsafeRuns` proves that nothing weaker would do. */
module ExactRuns {
  import opened Words
  import opened Compaction
  import opened Checksums
  import opened Store
  import opened Dictionary
  import opened Refinement

  /** The tail of the file is too short for the put, so it compacts first. */
  predicate Compacts(s: Store, op: Op) {
    op.PutOp? && |op.data| > s.fileSize - s.nextOffset
  }

  /** The operation overwrites the blob of slot `k`. */
  ghost predicate Replaces(s: Store, op: Op, k: nat)
    requires Valid(s)
  {
    op.PutOp? && Put(s, op.key, op.data).1 && FindEntry(s.slots, op.key) == k
  }

  /** If the operation compacts, no live blob but the one it replaces would have to move right. */
  ghost predicate Safe(s: Store, op: Op)
    requires Valid(s)
  {
    Compacts(s, op) ==>
      forall k :: 0 <= k < |s.slots| && Live(s.slots[k]) && !Replaces(s, op, k) ==> Slack(s.base, s.slots, k) >= 0
  }

  ghost predicate SafeRun(s: Store, ops: seq<Op>)
    requires Valid(s)
    decreases |ops|
  {
    ops != [] ==> Safe(s, ops[0]) && SafeRun(StoreStep(s, ops[0]).0, ops[1..])
  }

  /** The cache is in step with the map, contents included. */
  ghost predicate InStep(s: Store, m: Dict) {
    Tracks(s, m) && Holds(s, m)
  }

  // ----- contents

  /** Every slot but `r` holds what the map says. */
  ghost predicate OthersHold(s: Store, m: Dict, r: int) {
    forall i :: 0 <= i < |s.slots| && i != r ==> SlotHolds(s.mem, s.slots[i], m)
  }

  /** Compaction delivers each blob that does not move right, whatever becomes of the others. */
  lemma CompactedHolds(s: Store, m: Dict, r: int)
    requires Valid(s) && Holds(s, m)
    requires forall k :: 0 <= k < |s.slots| && Live(s.slots[k]) && k != r ==> Slack(s.base, s.slots, k) >= 0
    ensures OthersHold(Compacted(s), m, r)
  {
    hide Name, LiveBytes, MemAfter;
    ValidIsPlaceable(s);
    var c := Compacted(s);
    forall i | 0 <= i < |c.slots| && i != r
      ensures SlotHolds(c.mem, c.slots[i], m)
    {
      assert SlotHolds(s.mem, s.slots[i], m) && EntryOk(s.slots[i], s.base, s.nextOffset);
      if s.slots[i].used {
        StaysWhole(s.base, s.slots, s.mem, i);
        IntactSlice(s.mem, c.mem, s.slots[i], c.slots[i].offset);
      }
    }
  }

  lemma IntactSlice(mem: seq<byte>, m: seq<byte>, e: Entry, at: nat)
    requires Intact(mem, m, e, at)
    ensures m[at..at + e.length] == mem[e.offset..e.offset + e.length]
  {
    var a, b := m[at..at + e.length], mem[e.offset..e.offset + e.length];
    forall p | 0 <= p < e.length
      ensures a[p] == b[p]
    {
      assert m[at + p] == mem[e.offset + (at + p - at)];
    }
  }

  lemma AppendedHolds(s: Store, m: Dict, i: nat, key: seq<byte>, data: seq<byte>)
    requires Valid(s) && OthersHold(s, m, i) && i < |s.slots| && s.nextOffset + |data| <= s.fileSize
    requires OnlyAt(s.slots, i, Name(key))
    ensures Holds(Appended(s, i, key, data), m[Name(key) := data])
  {
    hide Name, LiveBytes, Checksum;
    NameOfKeyField(key);
    var t := Appended(s, i, key, data);
    forall j | 0 <= j < |t.slots|
      ensures SlotHolds(t.mem, t.slots[j], m[Name(key) := data])
    {
      if j == i {
        assert t.mem[s.nextOffset..s.nextOffset + |data|] == data;
      } else if s.slots[j].used {
        assert SlotHolds(s.mem, s.slots[j], m) && EntryOk(s.slots[j], s.base, s.nextOffset);
        assert t.mem[..s.nextOffset] == s.mem[..s.nextOffset];
        SliceOfPrefix(s.mem, t.mem, s.nextOffset, s.slots[j]);
      }
    }
  }

  lemma SliceOfPrefix(mem: seq<byte>, m: seq<byte>, n: nat, e: Entry)
    requires n <= |mem| && n <= |m| && mem[..n] == m[..n] && e.offset + e.length <= n
    ensures mem[e.offset..e.offset + e.length] == m[e.offset..e.offset + e.length]
  {
    assert mem[e.offset..e.offset + e.length] == mem[..n][e.offset..e.offset + e.length];
  }

  /** Making room for a put keeps every blob the put does not replace. */
  lemma RoomHolds(s: Store, m: Dict, key: seq<byte>, data: seq<byte>)
    requires Valid(s) && Holds(s, m) && Safe(s, PutOp(key, data))
    ensures OthersHold(MakeRoom(s, |data|), m, if Put(s, key, data).1 then FindEntry(s.slots, key) else -1)
  {
    hide Name, LiveBytes, MemAfter, FirstMatch, Put, Compacted;
    if |data| > s.fileSize - s.nextOffset {
      var r := if Put(s, key, data).1 then FindEntry(s.slots, key) else -1;
      assert forall k :: 0 <= k < |s.slots| && k != r ==> !Replaces(s, PutOp(key, data), k);
      CompactedHolds(s, m, r);
    }
  }

  lemma PutHolds(s: Store, m: Dict, key: seq<byte>, data: seq<byte>)
    requires Valid(s) && Tracks(s, m) && Holds(s, m) && Safe(s, PutOp(key, data))
    ensures Holds(Put(s, key, data).0, DictStep(m, PutOp(key, data), Capacity(s), |s.slots|).0)
  {
    hide Name, LiveBytes, MemAfter, FirstMatch, FirstFree, Holds, Tracks, Safe;
    PutTracks(s, m, key, data);
    CompactedValid(s);
    RoomHolds(s, m, key, data);
    SlotForCompacted(s, key);
    var c := MakeRoom(s, |data|);
    if Put(s, key, data).1 {
      OthersDiffer(c.slots, key);
      AppendedHolds(c, m, SlotFor(c.slots, key), key, data);
    } else {
      NoneLeftOut(c, m);
    }
  }

  lemma NoneLeftOut(s: Store, m: Dict)
    ensures OthersHold(s, m, -1) ==> Holds(s, m)
  {
  }

  lemma RemoveHolds(s: Store, m: Dict, key: seq<byte>)
    requires Valid(s) && Tracks(s, m) && Holds(s, m)
    ensures Holds(Remove(s, key).0, m - {Name(key)})
  {
    hide Name, LiveBytes, UsedCount, FirstMatch, DictBytes, Checksum, Disjoint, DistinctNames;
    PresentIff(s, m, key);
    OthersDiffer(s.slots, key);
    hide RowsTrack;
    var t := Remove(s, key).0;
    forall j | 0 <= j < |t.slots|
      ensures SlotHolds(t.mem, t.slots[j], m - {Name(key)})
    {
      assert SlotHolds(s.mem, s.slots[j], m);
    }
  }

  /** With the contents in step, `Get` brings exactly the map's value, and fails exactly when there is none. */
  lemma GetExact(s: Store, m: Dict, key: seq<byte>)
    requires Valid(s) && InStep(s, m)
    ensures Fetched(FetchedBytes(s, key)) == DictStep(m, GetOp(key), Capacity(s), |s.slots|).1
  {
    hide Name, Checksum, FirstMatch, DictBytes, LiveBytes, UsedCount, Disjoint, DistinctNames;
    PresentIff(s, m, key);
    var i := FindEntry(s.slots, key);
    if i != -1 {
      assert SlotTracks(s.slots[i], m) && EntryOk(s.slots[i], s.base, s.nextOffset) && SlotHolds(s.mem, s.slots[i], m);
      hide RowsTrack;
    }
  }

  lemma ClearedHolds(s: Store)
    ensures Holds(Cleared(s), map[])
  {
  }

  // ----- one step, then whole runs

  lemma StepExact(s: Store, m: Dict, op: Op)
    requires Valid(s) && InStep(s, m) && Safe(s, op)
    ensures var (t, o) := StoreStep(s, op);
      var (m', o') := DictStep(m, op, Capacity(s), |s.slots|);
      InStep(t, m') && o == o' && SameShape(s, t)
  {
    hide Tracks, Holds, Valid, Safe;
    StepTracks(s, m, op);
    match op
    case PutOp(key, data) =>
      hide DictStep, Put;
      PutTracks(s, m, key, data);
      PutHolds(s, m, key, data);
    case GetOp(key) =>
      GetExact(s, m, key);
    case RemoveOp(key) =>
      hide Remove;
      RemoveTracks(s, m, key);
      RemoveHolds(s, m, key);
    case ClearOp =>
      ClearedHolds(s);
  }

  /** Over every safe run the outcomes are exactly those of the bounded map. */
  lemma {:induction false} SafeRunExact(s: Store, m: Dict, ops: seq<Op>)
    requires Valid(s) && InStep(s, m) && SafeRun(s, ops)
    ensures StoreRun(s, ops).1 == DictRun(m, ops, Capacity(s), |s.slots|).1
    ensures InStep(StoreRun(s, ops).0, DictRun(m, ops, Capacity(s), |s.slots|).0)
    ensures SameShape(s, StoreRun(s, ops).0)
    decreases |ops|
  {
    hide InStep, StoreStep, DictStep, Valid, Safe;
    if ops != [] {
      var (t, o) := StoreStep(s, ops[0]);
      var (n, o') := DictStep(m, ops[0], Capacity(s), |s.slots|);
      var (u, os) := StoreRun(t, ops[1..]);
      var (n', os') := DictRun(n, ops[1..], Capacity(s), |s.slots|);
      assert StoreRun(s, ops) == (u, [o] + os);
      assert DictRun(m, ops, Capacity(s), |s.slots|) == (n', [o'] + os');
      assert SafeRun(t, ops[1..]);
      hide StoreRun, DictRun, SafeRun;
      StepExact(s, m, ops[0]);
      SafeRunExact(t, n, ops[1..]);
    }
  }

  /** A freshly initialised cache is an empty map. */
  lemma InitiallyEmpty(s: Store)
    requires |s.mem| == s.fileSize < 0x1_0000_0000 && |s.slots| < 0x1_0000_0000 && s.base <= s.fileSize
    ensures Valid(Cleared(s)) && InStep(Cleared(s), map[])
  {
    ClearedValid(s);
    ClearedTracks(s);
    ClearedHolds(s);
  }
}
