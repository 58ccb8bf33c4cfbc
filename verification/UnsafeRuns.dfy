/** Nothing weaker than `ExactRuns.Safe` would do: whether an operation is safe depends on the layout alone, and for
    an unsafe one there are contents the next `Get` cannot bring back. Over whole runs from an empty cache, being
    safe is exactly what makes the cache a map whatever bytes are stored. */
module UnsafeRuns {
  import opened Words
  import opened Compaction
  import opened Checksums
  import opened Store
  import opened Dictionary
  import opened Refinement
  import opened ExactRuns

  // ----- layouts

  /** Equal up to the checksum. */
  predicate SameRow(e: Entry, f: Entry) {
    f == e.(checksum := f.checksum)
  }

  /** Two caches that differ only in the bytes stored and their checksums. */
  ghost predicate SameLayout(s: Store, t: Store) {
    && t == s.(slots := t.slots, mem := t.mem) && |t.mem| == |s.mem| && |t.slots| == |s.slots|
    && forall i :: 0 <= i < |s.slots| ==> SameRow(s.slots[i], t.slots[i])
  }

  /** Operations that differ only in the bytes they store. */
  predicate SameForm(op: Op, op': Op) {
    match op
    case PutOp(key, data) => op'.PutOp? && op'.key == key && |op'.data| == |data|
    case _ => op' == op
  }

  ghost predicate SameForms(ops: seq<Op>, ops': seq<Op>) {
    |ops| == |ops'| && forall i :: 0 <= i < |ops| ==> SameForm(ops[i], ops'[i])
  }

  lemma SearchSame(s: Store, t: Store, key: seq<byte>)
    requires SameLayout(s, t)
    ensures FindEntry(s.slots, key) == FindEntry(t.slots, key)
    ensures SlotFor(s.slots, key) == SlotFor(t.slots, key)
  {
    hide FirstMatch, FirstFree;
    forall k | 0 <= k < |s.slots|
      ensures SameKey(s.slots[k], t.slots[k])
    {
      assert SameRow(s.slots[k], t.slots[k]);
    }
    SameSearch(s.slots, t.slots, key, 0);
  }

  lemma SumsSame(s: Store, t: Store, j: nat)
    requires SameLayout(s, t) && j <= |s.slots|
    ensures LiveBytes(s.slots, j) == LiveBytes(t.slots, j)
  {
    forall k | 0 <= k < j
      ensures Size(s.slots[k]) == Size(t.slots[k])
    {
      assert SameRow(s.slots[k], t.slots[k]);
    }
    LiveBytesSame(s.slots, t.slots, j);
  }

  lemma CompactedSame(s: Store, t: Store)
    requires Valid(s) && Valid(t) && SameLayout(s, t)
    ensures SameLayout(Compacted(s), Compacted(t))
  {
    hide LiveBytes, MemAfter, Valid;
    var c, d := Compacted(s), Compacted(t);
    SumsSame(s, t, |s.slots|);
    forall i | 0 <= i < |s.slots|
      ensures SameRow(c.slots[i], d.slots[i])
    {
      assert SameRow(s.slots[i], t.slots[i]);
      SumsSame(s, t, i);
    }
  }

  lemma AppendedSame(s: Store, t: Store, i: nat, key: seq<byte>, data: seq<byte>, data': seq<byte>)
    requires SameLayout(s, t) && i < |s.slots| && |data| == |data'| && s.nextOffset + |data| <= |s.mem|
    ensures SameLayout(Appended(s, i, key, data), Appended(t, i, key, data'))
  {
    hide KeyField, Checksum;
    var c, d := Appended(s, i, key, data), Appended(t, i, key, data');
    forall k | 0 <= k < |s.slots|
      ensures SameRow(c.slots[k], d.slots[k])
    {
      assert SameRow(s.slots[k], t.slots[k]);
    }
    assert SameRow(s.slots[i], t.slots[i]);
  }

  lemma RoomSame(s: Store, t: Store, length: nat)
    requires Valid(s) && Valid(t) && SameLayout(s, t)
    ensures SameLayout(MakeRoom(s, length), MakeRoom(t, length))
  {
    hide Valid, Compacted;
    CompactedSame(s, t);
  }

  lemma PutSame(s: Store, t: Store, key: seq<byte>, data: seq<byte>, data': seq<byte>)
    requires Valid(s) && Valid(t) && SameLayout(s, t) && |data| == |data'|
    ensures SameLayout(Put(s, key, data).0, Put(t, key, data').0) && Put(s, key, data).1 == Put(t, key, data').1
  {
    hide SameLayout, Appended, SlotFor, MakeRoom;
    if data != [] {
      RoomSame(s, t, |data|);
      CompactedValid(s);
      CompactedValid(t);
      var c, d := MakeRoom(s, |data|), MakeRoom(t, |data|);
      MadeRoomFits(s, |data|);
      MadeRoomFits(t, |data|);
      SearchSame(c, d, key);
      HeaderSame(c, d);
      SlotForRange(c.slots, key);
      hide Valid;
      if Put(s, key, data).1 {
        AppendedSame(c, d, SlotFor(c.slots, key), key, data, data');
      }
    }
  }

  lemma SlotForRange(slots: seq<Entry>, key: seq<byte>)
    ensures -1 <= SlotFor(slots, key) < |slots|
  {
    hide FirstMatch, FirstFree;
  }

  lemma MadeRoomFits(s: Store, length: nat)
    requires Valid(s)
    ensures var c := MakeRoom(s, length); c.nextOffset <= c.fileSize == |c.mem| == s.fileSize
  {
    CompactedValid(s);
  }

  lemma HeaderSame(s: Store, t: Store)
    requires SameLayout(s, t)
    ensures s.base == t.base && s.nextOffset == t.nextOffset && s.fileSize == t.fileSize && |s.slots| == |t.slots|
  {
  }

  lemma RemoveSame(s: Store, t: Store, key: seq<byte>)
    requires Valid(s) && Valid(t) && SameLayout(s, t)
    ensures SameLayout(Remove(s, key).0, Remove(t, key).0)
  {
    hide FirstMatch;
    SearchSame(s, t, key);
    hide Valid, FindEntry;
    var i := FindEntry(s.slots, key);
    if i != -1 {
      var c, d := Remove(s, key).0, Remove(t, key).0;
      forall k | 0 <= k < |s.slots|
        ensures SameRow(c.slots[k], d.slots[k])
      {
        assert SameRow(s.slots[k], t.slots[k]);
      }
    }
  }

  /** Where an operation leaves the blobs does not depend on any byte stored. */
  lemma StepSame(s: Store, t: Store, op: Op, op': Op)
    requires Valid(s) && Valid(t) && SameLayout(s, t) && SameForm(op, op')
    ensures SameLayout(StoreStep(s, op).0, StoreStep(t, op').0)
  {
    hide Valid, Put, Remove;
    match op
    case PutOp(key, data) => PutSame(s, t, key, data, op'.data);
    case GetOp(_) =>
    case RemoveOp(key) => RemoveSame(s, t, key);
    case ClearOp =>
  }

  /** Nor does whether the operation is safe. */
  lemma SafeSame(s: Store, t: Store, op: Op, op': Op)
    requires Valid(s) && Valid(t) && SameLayout(s, t) && SameForm(op, op') && Safe(s, op)
    ensures Safe(t, op')
  {
    hide Valid, Put, FindEntry, LiveBytes;
    if Compacts(t, op') {
      PutSame(s, t, op.key, op.data, op'.data);
      SearchSame(s, t, op.key);
      forall k | 0 <= k < |t.slots| && Live(t.slots[k]) && !Replaces(t, op', k)
        ensures Slack(t.base, t.slots, k) >= 0
      {
        assert SameRow(s.slots[k], t.slots[k]);
        SumsSame(s, t, k);
        assert Slack(s.base, s.slots, k) >= 0;
      }
    }
  }

  // ----- contents a compaction cannot bring through

  /** Ones under the name `v`, zeros under every other. */
  function Mark(v: seq<byte>, name: seq<byte>, length: nat): (b: seq<byte>)
    ensures |b| == length
  {
    seq(length, _ => if name == v then 1 else 0)
  }

  ghost predicate Marked(m: Dict, v: seq<byte>) {
    forall k :: k in m ==> m[k] == Mark(v, k, |m[k]|)
  }

  /** The slot whose blob the operation loses: it has to move right, and is not replaced. */
  ghost predicate Victim(s: Store, op: Op, k: nat)
    requires Valid(s)
  {
    && Compacts(s, op) && k < |s.slots| && Live(s.slots[k]) && !Replaces(s, op, k)
    && Slack(s.base, s.slots, k) < 0
  }

  lemma ZerosAround(s: Store, m: Dict, k: nat)
    requires Valid(s) && InStep(s, m) && k < |s.slots| && s.slots[k].used && Marked(m, Name(s.slots[k].key))
    ensures OthersZero(s.mem, s.slots, k, s.base, s.base)
  {
    hide Name, LiveBytes, UsedCount, DictBytes, Tracks, Disjoint;
    forall i | 0 <= i < |s.slots| && i != k && Live(s.slots[i])
      ensures ZeroBlob(s.mem, s.slots[i])
    {
      var e := s.slots[i];
      assert SlotHolds(s.mem, e, m);
      assert Name(e.key) != Name(s.slots[k].key);
      var b := s.mem[e.offset..e.offset + e.length];
      assert b == Mark(Name(s.slots[k].key), Name(e.key), |b|);
      forall x | 0 <= x < |s.mem| && !OffBlob(e, x)
        ensures s.mem[x] == 0
      {
        assert s.mem[x] == b[x - e.offset];
      }
    }
  }

  lemma CompactedRow(s: Store, k: nat)
    requires Valid(s) && k < |s.slots| && Live(s.slots[k])
    ensures var (c, at) := (Compacted(s), s.base + LiveBytes(s.slots, k));
      |c.slots| == |s.slots| && c.slots[k] == s.slots[k].(offset := at) && at < c.nextOffset <= |c.mem|
  {
    CompactedValid(s);
    hide LiveBytes, MemAfter, DistinctNames, Disjoint, UsedCount;
    assert EntryOk(Compacted(s).slots[k], s.base, Compacted(s).nextOffset);
  }

  lemma RowInArea(s: Store, k: nat)
    requires Valid(s) && k < |s.slots| && s.slots[k].used
    ensures s.base <= s.slots[k].offset && Placeable(s.base, s.slots, |s.mem|)
  {
    assert EntryOk(s.slots[k], s.base, s.nextOffset);
    ValidIsPlaceable(s);
  }

  /** After the compaction the blob of the victim begins with a zero. */
  lemma CompactionLoses(s: Store, m: Dict, k: nat)
    requires Valid(s) && InStep(s, m) && k < |s.slots| && Live(s.slots[k]) && Slack(s.base, s.slots, k) < 0
    requires Marked(m, Name(s.slots[k].key))
    ensures var (c, at) := (Compacted(s), s.base + LiveBytes(s.slots, k));
      at < |c.mem| && c.mem[at] == 0
  {
    hide OthersZero, Name, LiveBytes, MemAfter, InStep, Placeable, Marked, Slack, Valid;
    ZerosAround(s, m, k);
    RowInArea(s, k);
    FirstByteLost(s.base, s.slots, s.mem, k);
    assert Compacted(s).mem == MemAfter(s.base, s.slots, s.mem, |s.slots|);
  }

  /** The rest of the put does not touch that blob. */
  lemma PutKeepsVictim(s: Store, key: seq<byte>, data: seq<byte>, k: nat)
    requires Valid(s) && Victim(s, PutOp(key, data), k)
    ensures var (c, t) := (Compacted(s), Put(s, key, data).0);
      && |t.slots| == |c.slots| && t.slots[k] == c.slots[k] && |t.mem| == |c.mem| && c.nextOffset <= |c.mem|
      && t.mem[..c.nextOffset] == c.mem[..c.nextOffset]
  {
    CompactedValid(s);
    SlotForCompacted(s, key);
    hide LiveBytes, Compacted, FirstMatch, FirstFree, Disjoint, DistinctNames;
    var c := Compacted(s);
    if Put(s, key, data).1 {
      assert SlotFor(c.slots, key) != k;
    }
  }

  /** So the next `Get` under that name does not bring what was stored. */
  lemma VictimLost(s: Store, m: Dict, op: Op, k: nat)
    requires Valid(s) && InStep(s, m) && Victim(s, op, k) && Marked(m, Name(s.slots[k].key))
    ensures var (t, v) := (StoreStep(s, op).0, Name(s.slots[k].key));
      var m' := DictStep(m, op, Capacity(s), |s.slots|).0;
      && Tracks(t, m') && v in m' && m'[v] == m[v]
      && FetchedBytes(t, s.slots[k].key) != Some(m'[v])
  {
    var (key, data) := (op.key, op.data);
    var t, v := Put(s, key, data).0, Name(s.slots[k].key);
    StepTracks(s, m, op);
    CompactionLoses(s, m, k);
    CompactedRow(s, k);
    PutKeepsVictim(s, key, data, k);
    PutValid(s, key, data);
    VictimInMap(s, m, op, k);
    hide StoreStep, Put, Compacted, LiveBytes, Name, DictStep, UsedCount, Disjoint, Replaces, Slack;
    var c := Compacted(s);
    assert t.mem[c.slots[k].offset] == t.mem[..c.nextOffset][c.slots[k].offset] == 0;
    BeginsWithZero(t, s.slots[k].key, k);
    assert m[v][0] == 1;
    assert t == StoreStep(s, op).0 by { PutStep(s, key, data); }
  }

  lemma PutStep(s: Store, key: seq<byte>, data: seq<byte>)
    requires Valid(s)
    ensures StoreStep(s, PutOp(key, data)).0 == Put(s, key, data).0
  {
    hide Put;
  }

  lemma VictimInMap(s: Store, m: Dict, op: Op, k: nat)
    requires Valid(s) && InStep(s, m) && Victim(s, op, k)
    ensures var v := Name(s.slots[k].key);
      var m' := DictStep(m, op, Capacity(s), |s.slots|).0;
      v in m && |m[v]| == s.slots[k].length > 0 && v in m' && m'[v] == m[v]
  {
    hide Name, LiveBytes, DictBytes, Put, FindEntry, Fits;
    assert SlotTracks(s.slots[k], m);
    PutTracks(s, m, op.key, op.data);
    FindEntryIff(s.slots, op.key, k);
  }

  lemma BeginsWithZero(t: Store, key: seq<byte>, k: nat)
    requires Valid(t) && k < |t.slots| && t.slots[k].used && t.slots[k].key == key
    requires t.slots[k].offset < |t.mem| && t.mem[t.slots[k].offset] == 0
    ensures var f := FetchedBytes(t, key); f.Some? ==> f.value != [] && f.value[0] == 0
  {
    hide Name, LiveBytes, UsedCount, Checksum, FirstMatch, Disjoint;
    FindEntryIff(t.slots, key, k);
    assert EntryOk(t.slots[k], t.base, t.nextOffset);
  }

  // ----- one operation: for every layout, some contents

  /** The map of a slot table, with marked values. */
  ghost function MarkedDict(slots: seq<Entry>, v: seq<byte>, n: nat): Dict
    requires n <= |slots|
  {
    if n == 0 then map[] else
      var (m, e) := (MarkedDict(slots, v, n - 1), slots[n - 1]);
      if e.used then m[Name(e.key) := Mark(v, Name(e.key), e.length)] else m
  }

  ghost predicate NamedBefore(slots: seq<Entry>, k: seq<byte>, n: nat)
    requires n <= |slots|
  {
    exists i :: 0 <= i < n && slots[i].used && Name(slots[i].key) == k
  }

  lemma {:induction false} MarkedDictKeys(slots: seq<Entry>, v: seq<byte>, n: nat)
    requires n <= |slots|
    ensures forall k :: k in MarkedDict(slots, v, n) <==> NamedBefore(slots, k, n)
  {
    hide Name;
    if n > 0 {
      var e := slots[n - 1];
      MarkedDictKeys(slots, v, n - 1);
      forall k
        ensures NamedBefore(slots, k, n) <==> NamedBefore(slots, k, n - 1) || (e.used && Name(e.key) == k)
      {
        if NamedBefore(slots, k, n - 1) {
          var i :| 0 <= i < n - 1 && slots[i].used && Name(slots[i].key) == k;
          assert slots[i].used;
        }
        if e.used && Name(e.key) == k {
          assert slots[n - 1].used && Name(slots[n - 1].key) == k;
        }
      }
    }
  }

  lemma {:induction false} MarkedDictSums(slots: seq<Entry>, v: seq<byte>, n: nat)
    requires n <= |slots| && DistinctNames(slots)
    ensures |MarkedDict(slots, v, n)| == UsedCount(slots, n)
    ensures DictBytes(MarkedDict(slots, v, n)) == LiveBytes(slots, n)
    ensures Marked(MarkedDict(slots, v, n), v)
    ensures forall i :: 0 <= i < n && slots[i].used ==>
      Name(slots[i].key) in MarkedDict(slots, v, n) && |MarkedDict(slots, v, n)[Name(slots[i].key)]| == slots[i].length
  {
    hide Name, DictBytes, Mark;
    if n == 0 {
      EmptyTotal();
    } else {
      var e := slots[n - 1];
      MarkedDictSums(slots, v, n - 1);
      MarkedDictKeys(slots, v, n - 1);
      if e.used {
        DictBytesPut(MarkedDict(slots, v, n - 1), Name(e.key), Mark(v, Name(e.key), e.length));
      }
    }
  }

  lemma EmptyTotal()
    ensures DictBytes(map[]) == 0
  {
  }

  /** A blob with its mark as content. */
  function MarkedRow(e: Entry, v: seq<byte>): Entry {
    if e.used then e.(checksum := Checksum(Mark(v, Name(e.key), e.length))) else e
  }

  /** The layout of `s`, with ones in slot `k` and zeros elsewhere. */
  ghost function MarkedStore(s: Store, k: nat): Store
    requires k < |s.slots|
  {
    var v := Name(s.slots[k].key);
    s.(slots := seq(|s.slots|, i requires 0 <= i < |s.slots| => MarkedRow(s.slots[i], v)),
       mem := Compaction.Marked(s.slots, k, |s.mem|))
  }

  lemma MarkedStoreValid(s: Store, k: nat)
    requires Valid(s) && k < |s.slots|
    ensures SameLayout(s, MarkedStore(s, k)) && Valid(MarkedStore(s, k))
  {
    hide Name, LiveBytes, UsedCount, Checksum, Mark;
    var t := MarkedStore(s, k);
    UsedCountSame(s.slots, t.slots, |s.slots|);
    LiveBytesSame(s.slots, t.slots, |s.slots|);
    forall i | 0 <= i < |s.slots|
      ensures EntryOk(t.slots[i], t.base, t.nextOffset)
    {
      assert EntryOk(s.slots[i], s.base, s.nextOffset);
    }
  }

  lemma MarkedStoreTracks(s: Store, k: nat)
    requires Valid(s) && k < |s.slots|
    ensures Tracks(MarkedStore(s, k), MarkedDict(s.slots, Name(s.slots[k].key), |s.slots|))
  {
    hide Name, LiveBytes, UsedCount, Checksum, DictBytes, Disjoint;
    var (t, v, n) := (MarkedStore(s, k), Name(s.slots[k].key), |s.slots|);
    var m := MarkedDict(s.slots, v, n);
    MarkedDictKeys(s.slots, v, n);
    MarkedDictSums(s.slots, v, n);
    LiveBytesSame(s.slots, t.slots, n);
    hide MarkedDict, DistinctNames;
    forall i | 0 <= i < n
      ensures SlotTracks(t.slots[i], m)
    {
      assert s.slots[i].used ==> m[Name(s.slots[i].key)] == Mark(v, Name(s.slots[i].key), s.slots[i].length);
    }
    forall x | x in m
      ensures HasSlot(t.slots, x)
    {
      var i :| 0 <= i < n && s.slots[i].used && Name(s.slots[i].key) == x;
      assert t.slots[i].used && Name(t.slots[i].key) == x;
    }
  }

  lemma MarkedStoreHolds(s: Store, k: nat)
    requires Valid(s) && k < |s.slots| && s.slots[k].used
    ensures Holds(MarkedStore(s, k), MarkedDict(s.slots, Name(s.slots[k].key), |s.slots|))
  {
    hide Name, LiveBytes, UsedCount, Checksum, DictBytes, MarkedDict;
    var (t, v) := (MarkedStore(s, k), Name(s.slots[k].key));
    var m := MarkedDict(s.slots, v, |s.slots|);
    MarkedDictSums(s.slots, v, |s.slots|);
    forall i | 0 <= i < |t.slots|
      ensures SlotHolds(t.mem, t.slots[i], m)
    {
      var e := s.slots[i];
      assert EntryOk(e, s.base, s.nextOffset) && EntryOk(s.slots[k], s.base, s.nextOffset);
      if e.used {
        assert m[Name(e.key)] == Mark(v, Name(e.key), e.length);
        assert i != k ==> Name(e.key) != v && Apart(e, s.slots[k]);
        assert t.mem[e.offset..e.offset + e.length] == Mark(v, Name(e.key), e.length);
      }
    }
  }

  /** The map follows the cache through the operation, contents included. */
  ghost predicate StaysInStep(t: Store, m: Dict, op: Op)
    requires Valid(t)
  {
    InStep(StoreStep(t, op).0, DictStep(m, op, Capacity(t), |t.slots|).0)
  }

  lemma UnsafeBreaks(s: Store, op: Op, k: nat)
    requires Valid(s) && Victim(s, op, k)
    ensures var (t, m) := (MarkedStore(s, k), MarkedDict(s.slots, Name(s.slots[k].key), |s.slots|));
      SameLayout(s, t) && Valid(t) && InStep(t, m) && !StaysInStep(t, m, op)
  {
    var (t, v) := (MarkedStore(s, k), Name(s.slots[k].key));
    var m := MarkedDict(s.slots, v, |s.slots|);
    MarkedStoreValid(s, k);
    MarkedStoreTracks(s, k);
    MarkedStoreHolds(s, k);
    MarkedDictSums(s.slots, v, |s.slots|);
    VictimSame(s, t, op, op, k);
    hide MarkedStore, MarkedDict, Name, StoreStep, DictStep, Tracks, Holds, Valid, SameLayout, Victim, Marked;
    SameRowKey(s, t, k);
    VictimLost(t, m, op, k);
    StaysMeansFetched(t, m, op, t.slots[k].key);
  }

  lemma StaysMeansFetched(t: Store, m: Dict, op: Op, key: seq<byte>)
    requires Valid(t)
    ensures var (u, m') := (StoreStep(t, op).0, DictStep(m, op, Capacity(t), |t.slots|).0);
      StaysInStep(t, m, op) && Name(key) in m' ==> FetchedBytes(u, key) == Some(m'[Name(key)])
  {
    hide Valid, InStep, FetchedBytes, Name, StoreStep, DictStep;
    var (u, m') := (StoreStep(t, op).0, DictStep(m, op, Capacity(t), |t.slots|).0);
    if StaysInStep(t, m, op) && Name(key) in m' {
      GetStored(u, m', key);
    }
  }

  lemma GetStored(s: Store, m: Dict, key: seq<byte>)
    requires Valid(s) && InStep(s, m) && Name(key) in m
    ensures FetchedBytes(s, key) == Some(m[Name(key)])
  {
    hide Valid, InStep, FetchedBytes, Name;
    GetExact(s, m, key);
  }

  lemma SameRowKey(s: Store, t: Store, k: nat)
    requires SameLayout(s, t) && k < |s.slots|
    ensures |t.slots| == |s.slots| && t.slots[k].key == s.slots[k].key
  {
    assert SameRow(s.slots[k], t.slots[k]);
  }

  lemma VictimSame(s: Store, t: Store, op: Op, op': Op, k: nat)
    requires Valid(s) && Valid(t) && SameLayout(s, t) && SameForm(op, op') && Victim(s, op, k)
    ensures Victim(t, op', k)
  {
    hide Valid, Put, FindEntry, LiveBytes;
    PutSame(s, t, op.key, op.data, op'.data);
    SearchSame(s, t, op.key);
    assert SameRow(s.slots[k], t.slots[k]);
    SumsSame(s, t, k);
  }

  /** For every layout: the operation is safe if and only if it keeps every content of that layout in step. */
  lemma StepSafeIff(s: Store, op: Op)
    requires Valid(s)
    ensures Safe(s, op) <==>
      forall t: Store, m: Dict :: SameLayout(s, t) && Valid(t) && InStep(t, m) ==> StaysInStep(t, m, op)
  {
    hide Valid, InStep, SameLayout, StaysInStep, MarkedStore, MarkedDict, Name, Live, Slack, Compacts, Replaces;
    if Safe(s, op) {
      forall t: Store, m: Dict | SameLayout(s, t) && Valid(t) && InStep(t, m)
        ensures StaysInStep(t, m, op)
      {
        hide Safe;
        SafeSame(s, t, op, op);
        StepStays(t, m, op);
      }
    } else {
      var k := SomeVictim(s, op);
      UnsafeBreaks(s, op, k);
    }
  }

  lemma StepStays(t: Store, m: Dict, op: Op)
    requires Valid(t) && InStep(t, m) && Safe(t, op)
    ensures StaysInStep(t, m, op)
  {
    hide Valid, InStep, Safe, StoreStep, DictStep;
    StepExact(t, m, op);
  }

  // ----- whole runs, from an empty cache

  /** The outcomes are those of the map. */
  ghost predicate Faithful(s: Store, ops: seq<Op>)
    requires Valid(s)
  {
    StoreRun(s, ops).1 == DictRun(map[], ops, Capacity(s), |s.slots|).1
  }

  lemma {:induction false} StoreRunSnoc(s: Store, ops: seq<Op>, op: Op)
    requires Valid(s)
    ensures var t := StoreRun(s, ops).0;
      && StoreRun(s, ops + [op]).0 == StoreStep(t, op).0
      && StoreRun(s, ops + [op]).1 == StoreRun(s, ops).1 + [StoreStep(t, op).1]
    decreases |ops|
  {
    hide Valid, StoreStep;
    if ops == [] {
      assert ops + [op] == [op] && [op][1..] == [];
    } else {
      assert (ops + [op])[1..] == ops[1..] + [op];
      StoreRunSnoc(StoreStep(s, ops[0]).0, ops[1..], op);
    }
  }

  lemma {:induction false} DictRunSnoc(m: Dict, ops: seq<Op>, op: Op, capacity: nat, slotCount: nat)
    ensures var n := DictRun(m, ops, capacity, slotCount).0;
      && DictRun(m, ops + [op], capacity, slotCount).0 == DictStep(n, op, capacity, slotCount).0
      && DictRun(m, ops + [op], capacity, slotCount).1
         == DictRun(m, ops, capacity, slotCount).1 + [DictStep(n, op, capacity, slotCount).1]
    decreases |ops|
  {
    hide DictStep;
    if ops == [] {
      assert ops + [op] == [op] && [op][1..] == [];
    } else {
      assert (ops + [op])[1..] == ops[1..] + [op];
      DictRunSnoc(DictStep(m, ops[0], capacity, slotCount).0, ops[1..], op, capacity, slotCount);
    }
  }

  /** The layout after a run, and whether the run is safe, do not depend on any byte stored. */
  lemma {:induction false} RunSame(s: Store, t: Store, ops: seq<Op>, ops': seq<Op>)
    requires Valid(s) && Valid(t) && SameLayout(s, t) && SameForms(ops, ops')
    ensures SameLayout(StoreRun(s, ops).0, StoreRun(t, ops').0)
    ensures SafeRun(s, ops) ==> SafeRun(t, ops')
    decreases |ops|
  {
    hide Valid, SameLayout, StoreStep, Safe, SameForm;
    if ops != [] {
      assert SameForm(ops[0], ops'[0]);
      StepSame(s, t, ops[0], ops'[0]);
      RunSame(StoreStep(s, ops[0]).0, StoreStep(t, ops'[0]).0, ops[1..], ops'[1..]);
      if SafeRun(s, ops) {
        SafeSame(s, t, ops[0], ops'[0]);
      }
    }
  }

  lemma {:induction false} SafeThenGet(s: Store, ops: seq<Op>, n: nat, key: seq<byte>)
    requires Valid(s) && SafeRun(s, ops) && n <= |ops|
    ensures SafeRun(s, ops[..n] + [GetOp(key)])
    decreases n
  {
    hide Valid, StoreStep;
    if n == 0 {
      assert ops[..n] + [GetOp(key)] == [GetOp(key)] && [GetOp(key)][1..] == [];
    } else {
      hide Safe;
      assert (ops[..n] + [GetOp(key)])[1..] == ops[1..][..n - 1] + [GetOp(key)];
      SafeThenGet(StoreStep(s, ops[0]).0, ops[1..], n - 1, key);
    }
  }

  /** An unsafe run has a first unsafe operation. */
  lemma {:induction false} FirstUnsafe(s: Store, ops: seq<Op>) returns (n: nat)
    requires Valid(s) && !SafeRun(s, ops)
    ensures n < |ops| && SafeRun(s, ops[..n]) && !Safe(StoreRun(s, ops[..n]).0, ops[n])
    decreases |ops|
  {
    hide Valid, StoreStep, Safe;
    if !Safe(s, ops[0]) {
      n := 0;
    } else {
      var i := FirstUnsafe(StoreStep(s, ops[0]).0, ops[1..]);
      n := i + 1;
      assert ops[..n][1..] == ops[1..][..i];
    }
  }

  /** The same run, storing marks. */
  function MarkOp(op: Op, v: seq<byte>): Op {
    match op
    case PutOp(key, data) => PutOp(key, Mark(v, Name(key), |data|))
    case _ => op
  }

  function MarkOps(ops: seq<Op>, v: seq<byte>): (r: seq<Op>)
    ensures SameForms(ops, r)
  {
    seq(|ops|, i requires 0 <= i < |ops| => MarkOp(ops[i], v))
  }

  lemma {:induction false} MarksStay(m: Dict, ops: seq<Op>, v: seq<byte>, capacity: nat, slotCount: nat)
    requires Marked(m, v)
    ensures Marked(DictRun(m, MarkOps(ops, v), capacity, slotCount).0, v)
    decreases |ops|
  {
    hide Mark, Name, Fits;
    if ops != [] {
      assert MarkOps(ops, v)[1..] == MarkOps(ops[1..], v);
      MarksStay(DictStep(m, MarkOp(ops[0], v), capacity, slotCount).0, ops[1..], v, capacity, slotCount);
    }
  }

  /** Following an unsafe operation with marks stored throughout, a `Get` misses what was stored. */
  lemma MarksBetray(s: Store, ops: seq<Op>, n: nat, k: nat) returns (key: seq<byte>, v: seq<byte>)
    requires Valid(s) && InStep(s, map[]) && n < |ops| && SafeRun(s, ops[..n])
    requires Victim(StoreRun(s, ops[..n]).0, ops[n], k)
    ensures !Faithful(s, MarkOps(ops, v)[..n + 1] + [GetOp(key)])
  {
    hide Valid, InStep, StoreStep, DictStep, Victim, SafeRun, StoreRun, DictRun, Name, Marked, SameLayout, FetchedBytes,
         MarkOp, Mark, SameForm, Capacity;
    var (cap, count) := (Capacity(s), |s.slots|);
    var t0 := StoreRun(s, ops[..n]).0;
    assert k < |t0.slots| by { VictimIndex(t0, ops[n], k); }
    key := t0.slots[k].key;
    v := Name(key);
    var marked := MarkOps(ops, v);
    var pre, op := marked[..n], marked[n];
    assert pre == MarkOps(ops[..n], v);
    assert SameForm(ops[n], op);
    SelfSame(s);
    RunSame(s, s, ops[..n], pre);
    SafeRunExact(s, map[], pre);
    MarksStay(map[], ops[..n], v, cap, count) by { NoMarks(v); }
    var (t, m) := (StoreRun(s, pre).0, DictRun(map[], pre, cap, count).0);
    VictimSame(t0, t, ops[n], op, k);
    SameRowKey(t0, t, k);
    ShapeCapacity(s, t);
    VictimLost(t, m, op, k);
    StoreRunSnoc(s, pre, op);
    DictRunSnoc(map[], pre, op, cap, count);
    assert marked[..n + 1] == pre + [op];
    var (u, m') := (StoreStep(t, op).0, DictStep(m, op, cap, count).0);
    StoreRunSnoc(s, pre + [op], GetOp(key));
    DictRunSnoc(map[], pre + [op], GetOp(key), cap, count);
    GetOutcomes(u, m', key, cap, count);
    LastDiffers(StoreRun(s, pre + [op]).1, StoreStep(u, GetOp(key)).1,
                DictRun(map[], pre + [op], cap, count).1, DictStep(m', GetOp(key), cap, count).1);
  }

  lemma VictimIndex(s: Store, op: Op, k: nat)
    requires Valid(s) && Victim(s, op, k)
    ensures k < |s.slots|
  {
  }

  lemma SelfSame(s: Store)
    ensures SameLayout(s, s)
  {
  }

  lemma NoMarks(v: seq<byte>)
    ensures Marked(map[], v)
  {
  }

  lemma ShapeCapacity(s: Store, t: Store)
    requires SameShape(s, t)
    ensures Capacity(t) == Capacity(s) && |t.slots| == |s.slots|
  {
  }

  lemma GetOutcomes(s: Store, m: Dict, key: seq<byte>, capacity: nat, slotCount: nat)
    requires Valid(s) && Name(key) in m
    ensures StoreStep(s, GetOp(key)).1 == Fetched(FetchedBytes(s, key))
    ensures DictStep(m, GetOp(key), capacity, slotCount).1 == Fetched(Some(m[Name(key)]))
  {
    hide FetchedBytes, Name, Valid;
  }

  lemma LastDiffers(a: seq<Outcome>, x: Outcome, b: seq<Outcome>, y: Outcome)
    requires x != y && |a| == |b|
    ensures a + [x] != b + [y]
  {
    assert (a + [x])[|a|] == x && (b + [y])[|a|] == y;
  }

  /** From an empty cache: a run is safe if and only if, whatever bytes its puts store, at every point every `Get` and
      every operation before it has the outcome of the bounded map. */
  lemma SafeRunIff(s: Store, ops: seq<Op>)
    requires Valid(s) && s == Cleared(s)
    ensures SafeRun(s, ops) <==>
      forall ops': seq<Op>, n: nat, key: seq<byte> ::
        SameForms(ops, ops') && n <= |ops'| ==> Faithful(s, ops'[..n] + [GetOp(key)])
  {
    EmptyInStep(s);
    hide Valid, InStep, SameForms, Faithful, StoreRun, SameLayout, Cleared, Victim, MarkOps;
    if SafeRun(s, ops) {
      hide SafeRun;
      forall ops': seq<Op>, n: nat, key: seq<byte> | SameForms(ops, ops') && n <= |ops'|
        ensures Faithful(s, ops'[..n] + [GetOp(key)])
      {
        SelfSame(s);
        RunSame(s, s, ops, ops');
        SafeThenGet(s, ops', n, key);
        SafeFaithful(s, ops'[..n] + [GetOp(key)]);
      }
    } else {
      hide SafeRun;
      var n := FirstUnsafe(s, ops);
      var k := SomeVictim(StoreRun(s, ops[..n]).0, ops[n]);
      var key, v := MarksBetray(s, ops, n, k);
      FormsLength(ops, MarkOps(ops, v));
      assert SameForms(ops, MarkOps(ops, v)) && n + 1 <= |MarkOps(ops, v)|;
    }
  }

  lemma EmptyInStep(s: Store)
    requires Valid(s) && s == Cleared(s)
    ensures InStep(s, map[])
  {
    ClearedTracks(s);
    ClearedHolds(s);
  }

  lemma FormsLength(ops: seq<Op>, ops': seq<Op>)
    requires SameForms(ops, ops')
    ensures |ops| == |ops'|
  {
  }

  lemma SafeFaithful(s: Store, ops: seq<Op>)
    requires Valid(s) && InStep(s, map[]) && SafeRun(s, ops)
    ensures Faithful(s, ops)
  {
    hide Valid, InStep, SafeRun, StoreRun, DictRun;
    SafeRunExact(s, map[], ops);
  }

  lemma SomeVictim(s: Store, op: Op) returns (k: nat)
    requires Valid(s) && !Safe(s, op)
    ensures Victim(s, op, k)
  {
    hide Valid, Replaces, Slack, Live;
    k :| 0 <= k < |s.slots| && Live(s.slots[k]) && !Replaces(s, op, k) && Slack(s.base, s.slots, k) < 0;
  }
}
