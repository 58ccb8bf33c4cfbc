/** Where the cache is not the map, for every cache with two slots and four bytes or more: from the empty cache six
    operations lead to a `Get` that succeeds and returns bytes never stored under the key. A removal frees the low
    slot, a put refills it behind the blob of the slot above, and the next compaction copies it over that blob; the
    checksums happen to agree. */
module DisorderlyRun {
  import opened Words
  import opened Compaction
  import opened Checksums
  import opened Store
  import opened Dictionary
  import opened Refinement
  import opened ExactRuns
  import SharedCacheClass

  const A: seq<byte> := [65]
  const B: seq<byte> := [66]
  const C: seq<byte> := [67]
  const D: seq<byte> := [68]

  function Zeros(n: nat): (z: seq<byte>)
    ensures |z| == n
  {
    seq(n, _ => 0)
  }

  /** What is stored under B, in a data area of `room` bytes, and what comes back. */
  function Large(room: nat): (b: seq<byte>)
    requires room >= 4
    ensures |b| == room - 2
  {
    [0, 33] + Zeros(room - 4)
  }

  function Damaged(room: nat): (b: seq<byte>)
    requires room >= 4
    ensures |b| == room - 2
  {
    [1, 0] + Zeros(room - 4)
  }

  function Ops(room: nat): seq<Op>
    requires room >= 4
  {
    [PutOp(A, [7]), PutOp(B, Large(room)), RemoveOp(A), PutOp(C, [1, 0]), PutOp(D, [9]), GetOp(B)]
  }

  /** An empty cache of at least two slots and four bytes. */
  ghost predicate Spacious(s: Store) {
    Valid(s) && s == Cleared(s) && |s.slots| >= 2 && s.fileSize - s.base >= 4
  }

  function Room(s: Store): nat
    requires s.base <= s.fileSize
  {
    s.fileSize - s.base
  }

  // ----- slots beyond the first two stay empty

  predicate RestEmpty(slots: seq<Entry>) {
    |slots| >= 2 && forall k :: 2 <= k < |slots| ==> !slots[k].used
  }

  lemma Names()
    ensures forall k :: k in {A, B, C, D} ==> Name(KeyField(k)) == Name(k) == k
  {
    forall k | k in {A, B, C, D}
      ensures Name(KeyField(k)) == Name(k) == k
    {
      NameOfKeyField(k);
    }
  }

  lemma FirstTwo(slots: seq<Entry>, key: seq<byte>)
    requires RestEmpty(slots)
    ensures FindEntry(slots, key) == if slots[0].used && Name(slots[0].key) == Name(key) then 0
                                     else if slots[1].used && Name(slots[1].key) == Name(key) then 1 else -1
    ensures !slots[0].used ==> FindFreeEntry(slots) == 0
    ensures slots[0].used && !slots[1].used ==> FindFreeEntry(slots) == 1
  {
    MatchesIffName(slots[0], key);
    MatchesIffName(slots[1], key);
    hide Name, Matches;
    NoneBeyond(slots, key, 2);
    assert FirstMatch(slots, key, 1) == if Matches(slots[1], key) then 1 else -1;
  }

  lemma {:induction false} NoneBeyond(slots: seq<Entry>, key: seq<byte>, i: nat)
    requires RestEmpty(slots) && 2 <= i <= |slots|
    ensures FirstMatch(slots, key, i) == -1
    decreases |slots| - i
  {
    if i < |slots| {
      NoneBeyond(slots, key, i + 1);
    }
  }

  lemma {:induction false} SumOfTwo(slots: seq<Entry>, j: nat)
    requires RestEmpty(slots) && 2 <= j <= |slots|
    ensures LiveBytes(slots, 0) == 0 && LiveBytes(slots, 1) == Size(slots[0])
    ensures LiveBytes(slots, j) == Size(slots[0]) + Size(slots[1])
    decreases j
  {
    assert LiveBytes(slots, 1) == LiveBytes(slots, 0) + Size(slots[0]);
    assert LiveBytes(slots, 2) == LiveBytes(slots, 1) + Size(slots[1]);
    if j > 2 {
      SumOfTwo(slots, j - 1);
    }
  }

  lemma {:induction false} MemOfTwo(base: nat, slots: seq<Entry>, mem: seq<byte>, j: nat)
    requires RestEmpty(slots) && 2 <= j <= |slots| && Placeable(base, slots, |mem|)
    requires LiveBytes(slots, 1) <= LiveBytes(slots, 2) == LiveBytes(slots, j) == LiveBytes(slots, |slots|)
    ensures MemAfter(base, slots, mem, j) == MemAfter(base, slots, mem, 2)
    decreases j
  {
    SumOfTwo(slots, j);
    if j > 2 {
      SumOfTwo(slots, j - 1);
      MemOfTwo(base, slots, mem, j - 1);
    }
  }

  // ----- the layouts on the way

  /** Shape of `s`, these two entries, and `next` bytes of the data area taken. */
  ghost predicate Laid(s: Store, t: Store, e0: Entry, e1: Entry, next: nat) {
    && Valid(t) && SameShape(s, t) && RestEmpty(t.slots)
    && t.slots[0] == e0 && t.slots[1] == e1 && t.nextOffset == s.base + next
  }

  lemma PutAppends(s: Store, key: seq<byte>, data: seq<byte>)
    requires Valid(s) && data != [] && |data| <= s.fileSize - s.nextOffset && 0 <= SlotFor(s.slots, key) < |s.slots|
    ensures var t := StoreStep(s, PutOp(key, data)).0;
      && t.slots == s.slots[SlotFor(s.slots, key) := NewEntry(key, data, s.nextOffset)]
      && t.nextOffset == s.nextOffset + |data| && SameShape(s, t) && Safe(s, PutOp(key, data))
    ensures StoreStep(s, PutOp(key, data)).1 == Stored(true)
  {
    hide NewEntry, SlotFor, LiveBytes, Disjoint, DistinctNames, UsedCount;
  }

  lemma StepA(s: Store)
    requires Spacious(s)
    ensures var t := StoreStep(s, PutOp(A, [7])).0;
      Safe(s, PutOp(A, [7])) && Laid(s, t, NewEntry(A, [7], s.base), EmptyEntry(), 1)
  {
    FirstTwo(s.slots, A);
    hide FindEntry, FindFreeEntry, Disjoint, DistinctNames, LiveBytes, UsedCount, Name, KeyField, Checksum;
    assert s.slots[0] == EmptyEntry() && s.slots[1] == EmptyEntry();
    hide EmptyEntry;
    PutAppends(s, A, [7]);
    hide NewEntry, StoreStep;
  }

  lemma StepB(s: Store, t: Store)
    requires Spacious(s) && Laid(s, t, NewEntry(A, [7], s.base), EmptyEntry(), 1)
    ensures var op := PutOp(B, Large(Room(s)));
      && Safe(t, op) && StoreStep(t, op).1 == Stored(true)
      && Laid(s, StoreStep(t, op).0, NewEntry(A, [7], s.base), NewEntry(B, op.data, s.base + 1), Room(s) - 1)
  {
    Names();
    FirstTwo(t.slots, B);
    hide FindEntry, FindFreeEntry, Name, KeyField, Checksum, LiveBytes, UsedCount, Disjoint, DistinctNames;
    PutAppends(t, B, Large(Room(s)));
    hide StoreStep, Large;
  }

  lemma StepRemove(s: Store, t: Store)
    requires Spacious(s) && Laid(s, t, NewEntry(A, [7], s.base), NewEntry(B, Large(Room(s)), s.base + 1), Room(s) - 1)
    ensures Safe(t, RemoveOp(A))
    ensures Laid(s, StoreStep(t, RemoveOp(A)).0, EmptyEntry(), NewEntry(B, Large(Room(s)), s.base + 1), Room(s) - 1)
  {
    Names();
    FirstTwo(t.slots, A);
    hide FindEntry, Name, KeyField, Checksum, LiveBytes, UsedCount, Disjoint, DistinctNames, Large;
  }

  /** The tail of the file is too short for C: the blob of B moves to the start, where the room of A was. */
  lemma CompactsB(s: Store, t: Store)
    requires Spacious(s) && Laid(s, t, EmptyEntry(), NewEntry(B, Large(Room(s)), s.base + 1), Room(s) - 1)
    ensures Laid(s, Compacted(t), EmptyEntry(), NewEntry(B, Large(Room(s)), s.base), Room(s) - 2)
    ensures Slack(t.base, t.slots, 1) == 1
  {
    CompactedValid(t);
    SumOfTwo(t.slots, |t.slots|);
    hide LiveBytes, MemAfter, UsedCount, Disjoint, DistinctNames, KeyField, Checksum, Large;
  }

  lemma StepC(s: Store, t: Store)
    requires Spacious(s) && Laid(s, t, EmptyEntry(), NewEntry(B, Large(Room(s)), s.base + 1), Room(s) - 1)
    ensures var u := StoreStep(t, PutOp(C, [1, 0])).0;
      && Safe(t, PutOp(C, [1, 0])) && StoreStep(t, PutOp(C, [1, 0])).1 == Stored(true)
      && Laid(s, u, NewEntry(C, [1, 0], s.base + Room(s) - 2), NewEntry(B, Large(Room(s)), s.base), Room(s))
  {
    Names();
    CompactsB(s, t);
    var c := Compacted(t);
    FirstTwo(c.slots, C);
    hide FindEntry, FindFreeEntry, Name, KeyField, Checksum, LiveBytes, UsedCount, Disjoint, DistinctNames, Compacted,
         Large,
         EmptyEntry;
    EmptyUnused();
    PutAppends(c, C, [1, 0]);
    PutAfterCompaction(t, C, [1, 0]);
    OnlySecond(t);
  }

  lemma EmptyUnused()
    ensures !EmptyEntry().used
  {
  }

  lemma PutAfterCompaction(t: Store, key: seq<byte>, data: seq<byte>)
    requires Valid(t) && |data| > t.fileSize - t.nextOffset && Valid(Compacted(t))
    requires |data| <= Compacted(t).fileSize - Compacted(t).nextOffset
    ensures StoreStep(t, PutOp(key, data)) == StoreStep(Compacted(t), PutOp(key, data))
  {
    hide Compacted, SlotFor, Appended, LiveBytes, Disjoint, DistinctNames, UsedCount;
  }

  lemma OnlySecond(t: Store)
    requires Valid(t) && RestEmpty(t.slots) && !t.slots[0].used && Slack(t.base, t.slots, 1) >= 0
    ensures forall key, data :: Safe(t, PutOp(key, data))
  {
    hide Valid, Put, Replaces, Slack;
  }

  // ----- the damage

  lemma Checks(room: nat)
    requires room >= 4
    ensures Checksum(Large(room)) == Checksum(Damaged(room)) && Large(room) != Damaged(room)
  {
    TwoBytes(0, 33);
    TwoBytes(1, 0);
    hide Checksum;
    ChecksumAppend([0, 33], Zeros(room - 4));
    ChecksumAppend([1, 0], Zeros(room - 4));
    assert Large(room)[0] == 0 && Damaged(room)[0] == 1;
  }

  lemma OneByte(x: byte)
    ensures Checksum([x]) == x
  {
    hide Checksum, Step;
    Empty();
    ChecksumSnoc([], x);
    assert [] + [x] == [x];
    StepMod(0, x);
  }

  lemma TwoBytes(x: byte, y: byte)
    ensures Checksum([x, y]) == 33 * x + y
  {
    hide Checksum, Step;
    OneByte(x);
    ChecksumSnoc([x], y);
    assert [x] + [y] == [x, y];
    StepMod(x, y);
  }

  /** The two moves, slot 0 first: its two bytes land on the start of the other blob, which then moves. */
  lemma TwoMoves(mem: seq<byte>, base: nat, room: nat)
    requires room >= 4 && base + room <= |mem|
    requires mem[base..base + room - 2] == Large(room) && mem[base + room - 2..base + room] == [1, 0]
    ensures Move(Move(mem, base, base + room - 2, 2), base + 2, base, room - 2)[base + 2..base + room] == Damaged(room)
  {
    var m := Move(mem, base, base + room - 2, 2);
    var r := Move(m, base + 2, base, room - 2);
    forall i | 0 <= i < room - 2
      ensures r[base + 2 + i] == Damaged(room)[i]
    {
      assert r[base + 2 + i] == m[base + i];
      if i < 2 {
        assert m[base + i] == mem[base + room - 2 + i] == mem[base + room - 2..base + room][i];
      } else {
        assert m[base + i] == mem[base + i] == mem[base..base + room - 2][i];
      }
    }
    assert r[base + 2..base + room] == Damaged(room);
  }

  /** Both slots full, the one above first in the file, and their contents. */
  ghost predicate Full(s: Store, u: Store) {
    && Spacious(s)
    && Laid(s, u, NewEntry(C, [1, 0], s.base + Room(s) - 2), NewEntry(B, Large(Room(s)), s.base), Room(s))
    && u.mem[s.base..s.base + Room(s) - 2] == Large(Room(s))
    && u.mem[s.base + Room(s) - 2..s.base + Room(s)] == [1, 0]
  }

  lemma FullSums(s: Store, u: Store)
    requires Full(s, u)
    ensures TotalBytes(u.slots) == Room(s) && Slack(u.base, u.slots, 1) < 0
    ensures LiveBytes(u.slots, 0) == 0 && LiveBytes(u.slots, 1) == 2
    ensures LiveBytes(u.slots, 2) == LiveBytes(u.slots, |u.slots|) == Room(s)
    ensures Placeable(u.base, u.slots, |u.mem|) && |u.mem| == u.fileSize == u.base + Room(s)
  {
    ValidIsPlaceable(u);
    hide Large, Damaged, KeyField, Checksum, Disjoint, DistinctNames, UsedCount, LiveBytes, Within, EntryOk;
    SumOfTwo(u.slots, |u.slots|);
    SumOfTwo(u.slots, 2);
  }

  lemma FullRows(s: Store, u: Store)
    requires Full(s, u)
    ensures Valid(u) && u.base == s.base && RestEmpty(u.slots) && Room(s) >= 4
    ensures u.slots[0].used && u.slots[0].offset == u.base + Room(s) - 2 && u.slots[0].length == 2
    ensures u.slots[1].used && u.slots[1].offset == u.base && u.slots[1].length == Room(s) - 2
    ensures u.base + Room(s) <= |u.mem|
    ensures u.mem[u.base..u.base + Room(s) - 2] == Large(Room(s))
        && u.mem[u.base + Room(s) - 2..u.base + Room(s)] == [1, 0]
  {
    hide KeyField, Checksum, LiveBytes, Disjoint, DistinctNames, UsedCount, Cleared;
  }

  lemma CompactedMem(u: Store)
    requires Valid(u) && Placeable(u.base, u.slots, |u.mem|)
    ensures Compacted(u).mem == MemAfter(u.base, u.slots, u.mem, |u.slots|)
  {
    hide Valid, MemAfter, LiveBytes;
  }

  lemma FullMoves(s: Store, u: Store)
    requires Full(s, u)
    ensures Valid(u) && s.base + 2 <= s.base + Room(s) == |Compacted(u).mem|
    ensures Compacted(u).mem[s.base + 2..s.base + Room(s)] == Damaged(Room(s))
  {
    var room := Room(s);
    FullRows(s, u);
    FullSums(s, u);
    assert |u.slots| >= 2;
    hide *;
    CompactedMem(u);
    TwoMoves(u.mem, u.base, room);
    MemOfTwo(u.base, u.slots, u.mem, |u.slots|);
    FirstTwoMoves(u, room);
  }

  lemma CompactsOver(s: Store, u: Store)
    requires Full(s, u)
    ensures var c := Compacted(u);
      && Valid(c) && RestEmpty(c.slots) && c.nextOffset == c.fileSize
      && c.slots[0].key == KeyField(C) && c.slots[1] == NewEntry(B, Large(Room(s)), s.base + 2)
      && |c.mem| == s.base + Room(s) && c.mem[s.base + 2..s.base + Room(s)] == Damaged(Room(s))
    ensures TotalBytes(u.slots) == Room(s) && Slack(u.base, u.slots, 1) < 0
  {
    CompactedValid(u);
    FullSums(s, u);
    FullMoves(s, u);
    hide Large, Damaged, KeyField, Checksum, Valid, LiveBytes, MemAfter, Cleared, Slack, Placeable;
  }

  lemma FirstTwoMoves(u: Store, room: nat)
    requires Valid(u) && |u.slots| >= 2 && room >= 4 && u.base + room <= |u.mem| && Placeable(u.base, u.slots, |u.mem|)
    requires LiveBytes(u.slots, 0) == 0 && LiveBytes(u.slots, 1) == 2 && LiveBytes(u.slots, 2) == room
    requires u.slots[0].used && u.slots[0].offset == u.base + room - 2 && u.slots[0].length == 2
    requires u.slots[1].used && u.slots[1].offset == u.base && u.slots[1].length == room - 2
    ensures MemAfter(u.base, u.slots, u.mem, 2)
         == Move(Move(u.mem, u.base, u.base + room - 2, 2), u.base + 2, u.base, room - 2)
  {
    hide Valid, LiveBytes;
    assert MemAfter(u.base, u.slots, u.mem, 0) == u.mem;
    assert MemAfter(u.base, u.slots, u.mem, 1) == Move(u.mem, u.base, u.base + room - 2, 2);
  }

  /** The put of D fails, but not before it has compacted. */
  lemma StepD(s: Store, u: Store)
    requires Full(s, u)
    ensures !Safe(u, PutOp(D, [9])) && StoreStep(u, PutOp(D, [9])).0 == Compacted(u)
  {
    CompactsOver(s, u);
    PutSucceedsIff(u, D, [9]);
    assert u.nextOffset == u.fileSize && u.base + Room(s) == u.fileSize;
    assert Live(u.slots[1]);
    hide Large, Damaged, KeyField, Checksum, Valid, LiveBytes, FindEntry, Compacted, Slack, Laid, Spacious, NewEntry,
         Live;
    PutFails(u, D, [9]);
    assert !Replaces(u, PutOp(D, [9]), 1);
  }

  lemma PutFails(u: Store, key: seq<byte>, data: seq<byte>)
    requires Valid(u) && data != [] && |data| > u.fileSize - u.nextOffset && !Put(u, key, data).1
    ensures StoreStep(u, PutOp(key, data)).0 == Compacted(u)
  {
    hide Compacted, SlotFor, Appended, LiveBytes, Disjoint, DistinctNames, UsedCount;
  }

  lemma GetBlob(c: Store, key: seq<byte>, i: nat, bytes: seq<byte>)
    requires Valid(c) && i < |c.slots| && FindEntry(c.slots, key) == i
    requires var e := c.slots[i];
      && e.offset + e.length <= |c.mem| && Blob(c.mem, e) == bytes && Checksum(bytes) == e.checksum
    ensures FetchedBytes(c, key) == Some(bytes)
  {
    hide Valid, Checksum, FindEntry;
  }

  lemma FindsB(slots: seq<Entry>, data: seq<byte>, offset: nat)
    requires RestEmpty(slots) && slots[0].key == KeyField(C) && slots[1] == NewEntry(B, data, offset)
    ensures FindEntry(slots, B) == 1
  {
    hide KeyField, Checksum, FindEntry, Name;
    Names();
    FirstTwo(slots, B);
  }

  lemma GetB(c: Store, offset: nat, data: seq<byte>, found: seq<byte>)
    requires Valid(c) && RestEmpty(c.slots) && c.slots[0].key == KeyField(C) && c.slots[1] == NewEntry(B, data, offset)
    requires |data| == |found| && offset + |found| == |c.mem| && c.mem[offset..|c.mem|] == found
    requires Checksum(found) == Checksum(data)
    ensures FetchedBytes(c, B) == Some(found)
  {
    hide KeyField, Checksum, FindEntry, Name, Valid, FetchedBytes;
    FindsB(c.slots, data, offset);
    GetBlob(c, B, 1, found);
  }

  lemma StepGet(s: Store, u: Store)
    requires Full(s, u)
    ensures Valid(Compacted(u)) && FetchedBytes(Compacted(u), B) == Some(Damaged(Room(s)))
  {
    var room := Room(s);
    hide *;
    CompactsOver(s, u);
    Checks(room);
    GetB(Compacted(u), s.base + 2, Large(room), Damaged(room));
  }

  // ----- the run

  lemma StoreCons(s: Store, op: Op, rest: seq<Op>)
    requires Valid(s)
    ensures StoreRun(s, [op] + rest).1 == [StoreStep(s, op).1] + StoreRun(StoreStep(s, op).0, rest).1
    ensures SafeRun(s, [op] + rest) <==> Safe(s, op) && SafeRun(StoreStep(s, op).0, rest)
  {
    hide StoreStep, Valid, Safe;
    assert ([op] + rest)[1..] == rest;
  }

  lemma DictCons(m: Dict, op: Op, rest: seq<Op>, capacity: nat, slotCount: nat)
    ensures var (n, o) := DictStep(m, op, capacity, slotCount);
      DictRun(m, [op] + rest, capacity, slotCount).1 == [o] + DictRun(n, rest, capacity, slotCount).1
  {
    hide DictStep;
    assert ([op] + rest)[1..] == rest;
  }

  /** A put that succeeded is in the map. */
  lemma PutStored(m: Dict, key: seq<byte>, data: seq<byte>, capacity: nat, slotCount: nat)
    requires DictStep(m, PutOp(key, data), capacity, slotCount).1 == Stored(true)
    ensures var n := DictStep(m, PutOp(key, data), capacity, slotCount).0; Name(key) in n && n[Name(key)] == data
  {
    hide Name, Fits;
  }

  /** After `k` operations the cache is `t`, and what is left of the run starts there. */
  ghost predicate StoreAlong(s: Store, ops: seq<Op>, k: nat, t: Store) {
    && Valid(s) && Valid(t) && k <= |ops|
    && StoreRun(s, ops).1[k..] == StoreRun(t, ops[k..]).1 && (SafeRun(s, ops) ==> SafeRun(t, ops[k..]))
  }

  /** After `k` operations the map is `m`, and what is left of its run starts there. */
  ghost predicate DictAlong(ops: seq<Op>, k: nat, m: Dict, room: nat, n: nat) {
    k <= |ops| && DictRun(map[], ops, room, n).1[k..] == DictRun(m, ops[k..], room, n).1
  }

  ghost predicate Along(s: Store, k: nat, t: Store, m: Dict) {
    && Spacious(s) && StoreAlong(s, Ops(Room(s)), k, t) && DictAlong(Ops(Room(s)), k, m, Room(s), |s.slots|)
  }

  lemma AtStart(s: Store)
    requires Spacious(s)
    ensures Along(s, 0, s, map[]) && InStep(s, map[])
  {
    InitiallyEmpty(s);
    hide Valid, InStep, StoreRun, DictRun, SafeRun, Ops;
    assert Ops(Room(s))[0..] == Ops(Room(s));
  }

  lemma DropOne(os: seq<Outcome>, k: nat, o: Outcome, rest: seq<Outcome>)
    requires k <= |os| && os[k..] == [o] + rest
    ensures k < |os| && os[k] == o && os[k + 1..] == rest
  {
    assert os[k + 1..] == os[k..][1..];
  }

  lemma StoreOn(s: Store, ops: seq<Op>, k: nat, t: Store)
    requires StoreAlong(s, ops, k, t) && k < |ops|
    ensures StoreAlong(s, ops, k + 1, StoreStep(t, ops[k]).0) && StoreRun(s, ops).1[k] == StoreStep(t, ops[k]).1
    ensures SafeRun(s, ops) ==> Safe(t, ops[k])
  {
    assert ops[k..] == [ops[k]] + ops[k + 1..];
    hide Valid, StoreRun, SafeRun, Safe, StoreStep;
    StoreCons(t, ops[k], ops[k + 1..]);
    DropOne(StoreRun(s, ops).1, k, StoreStep(t, ops[k]).1, StoreRun(StoreStep(t, ops[k]).0, ops[k + 1..]).1);
  }

  lemma DictOn(ops: seq<Op>, k: nat, m: Dict, room: nat, n: nat)
    requires DictAlong(ops, k, m, room, n) && k < |ops|
    ensures DictAlong(ops, k + 1, DictStep(m, ops[k], room, n).0, room, n)
    ensures DictRun(map[], ops, room, n).1[k] == DictStep(m, ops[k], room, n).1
  {
    assert ops[k..] == [ops[k]] + ops[k + 1..];
    hide DictRun, DictStep;
    DictCons(m, ops[k], ops[k + 1..], room, n);
    DropOne(DictRun(map[], ops, room, n).1, k, DictStep(m, ops[k], room, n).1,
            DictRun(DictStep(m, ops[k], room, n).0, ops[k + 1..], room, n).1);
  }

  lemma OneOn(s: Store, k: nat, t: Store, m: Dict, op: Op)
    requires Along(s, k, t, m) && Valid(t) && k < 6 && op == Ops(Room(s))[k]
    ensures var (u, o) := StoreStep(t, op);
      var (n, o') := DictStep(m, op, Room(s), |s.slots|);
      && Along(s, k + 1, u, n) && (SafeRun(s, Ops(Room(s))) ==> Safe(t, op))
      && StoreRun(s, Ops(Room(s))).1[k] == o && DictRun(map[], Ops(Room(s)), Room(s), |s.slots|).1[k] == o'
  {
    var ops := Ops(Room(s));
    assert |ops| == 6;
    hide Valid, StoreRun, DictRun, SafeRun, Ops, Safe, StoreStep, DictStep, StoreAlong, DictAlong, Spacious;
    StoreOn(s, ops, k, t);
    DictOn(ops, k, m, Room(s), |s.slots|);
  }

  /** Along, and in step so far. */
  ghost predicate On(s: Store, k: nat, t: Store, m: Dict) {
    Along(s, k, t, m) && SameShape(s, t) && InStep(t, m)
  }

  lemma SafeOn(s: Store, k: nat, t: Store, m: Dict, op: Op)
    requires On(s, k, t, m) && k < 6 && op == Ops(Room(s))[k] && Safe(t, op)
    ensures var (u, o) := StoreStep(t, op);
      var (n, o') := DictStep(m, op, Room(s), |s.slots|);
      On(s, k + 1, u, n) && o == o'
  {
    SpaciousOf(s, k, t, m);
    SameRoom(s, t);
    hide Valid, InStep, Safe, StoreStep, DictStep, Spacious, Along, Ops;
    OneOn(s, k, t, m, op);
    StepExact(t, m, op);
  }

  lemma SpaciousOf(s: Store, k: nat, t: Store, m: Dict)
    requires Along(s, k, t, m)
    ensures Spacious(s) && Valid(t)
  {
    hide Spacious, Valid, StoreRun, DictRun, SafeRun;
  }

  lemma SameRoom(s: Store, t: Store)
    requires Spacious(s) && SameShape(s, t)
    ensures Capacity(t) == Room(s) && |t.slots| == |s.slots|
  {
    hide Cleared;
  }

  lemma OnStart(s: Store)
    requires Spacious(s)
    ensures On(s, 0, s, map[])
  {
    hide Spacious, InStep, Along;
    AtStart(s);
  }

  lemma AfterA(s: Store) returns (t: Store, m: Dict)
    requires Spacious(s)
    ensures On(s, 1, t, m) && Laid(s, t, NewEntry(A, [7], s.base), EmptyEntry(), 1)
  {
    var op := PutOp(A, [7]);
    OpsAre(Room(s));
    hide *;
    OnStart(s);
    StepA(s);
    SafeOn(s, 0, s, map[], op);
    t, m := StoreStep(s, op).0, DictStep(map[], op, Room(s), |s.slots|).0;
  }

  lemma AfterB(s: Store) returns (t: Store, m: Dict)
    requires Spacious(s)
    ensures On(s, 2, t, m) && B in m && m[B] == Large(Room(s))
    ensures Laid(s, t, NewEntry(A, [7], s.base), NewEntry(B, Large(Room(s)), s.base + 1), Room(s) - 1)
  {
    var op := PutOp(B, Large(Room(s)));
    Names();
    OpsAre(Room(s));
    hide *;
    t, m := AfterA(s);
    StepB(s, t);
    SafeOn(s, 1, t, m, op);
    PutStored(m, B, op.data, Room(s), |s.slots|);
    t, m := StoreStep(t, op).0, DictStep(m, op, Room(s), |s.slots|).0;
  }

  lemma AfterRemove(s: Store) returns (t: Store, m: Dict)
    requires Spacious(s)
    ensures On(s, 3, t, m) && B in m && m[B] == Large(Room(s))
    ensures Laid(s, t, EmptyEntry(), NewEntry(B, Large(Room(s)), s.base + 1), Room(s) - 1)
  {
    var op := RemoveOp(A);
    Names();
    OpsAre(Room(s));
    hide *;
    t, m := AfterB(s);
    StepRemove(s, t);
    SafeOn(s, 2, t, m, op);
    DictStepElsewhere(m, op, Room(s), |s.slots|, B);
    t, m := StoreStep(t, op).0, DictStep(m, op, Room(s), |s.slots|).0;
  }

  /** Four safe operations fill the cache. */
  lemma AfterC(s: Store) returns (t: Store, m: Dict)
    requires Spacious(s)
    ensures Along(s, 4, t, m) && Full(s, t) && B in m && m[B] == Large(Room(s))
  {
    var op := PutOp(C, [1, 0]);
    Names();
    OpsAre(Room(s));
    hide *;
    t, m := AfterRemove(s);
    StepC(s, t);
    SafeOn(s, 3, t, m, op);
    PutStored(m, C, [1, 0], Room(s), |s.slots|);
    DictStepElsewhere(m, op, Room(s), |s.slots|, B);
    t, m := StoreStep(t, op).0, DictStep(m, op, Room(s), |s.slots|).0;
    OnIs(s, 4, t, m);
    IsFull(s, t, m);
  }

  lemma OnIs(s: Store, k: nat, t: Store, m: Dict)
    requires On(s, k, t, m)
    ensures Along(s, k, t, m) && InStep(t, m)
  {
    hide Along, InStep;
  }

  lemma OpsAre(room: nat)
    requires room >= 4
    ensures var ops := Ops(room);
      && |ops| == 6 && ops[0] == PutOp(A, [7]) && ops[1] == PutOp(B, Large(room)) && ops[2] == RemoveOp(A)
      && ops[3] == PutOp(C, [1, 0]) && ops[4] == PutOp(D, [9]) && ops[5] == GetOp(B)
  {
    hide Large;
  }

  lemma IsFull(s: Store, u: Store, m: Dict)
    requires Spacious(s) && InStep(u, m) && B in m && m[B] == Large(Room(s)) && C in m && m[C] == [1, 0]
    requires Laid(s, u, NewEntry(C, [1, 0], s.base + Room(s) - 2), NewEntry(B, Large(Room(s)), s.base), Room(s))
    ensures Full(s, u)
  {
    Names();
    hide Tracks, Large, KeyField, Checksum, Valid, Name;
    assert SlotHolds(u.mem, u.slots[0], m) && SlotHolds(u.mem, u.slots[1], m);
  }

  /** `Get` succeeds with bytes never stored under the key: the map would have brought those stored. The run is not
      safe. */
  lemma WrongBytesReturned(s: Store)
    requires Spacious(s)
    ensures var (ops, room) := (Ops(Room(s)), Room(s));
      && !SafeRun(s, ops)
      && StoreRun(s, ops).1[5] == Fetched(Some(Damaged(room)))
      && DictRun(map[], ops, room, |s.slots|).1[5] == Fetched(Some(Large(room)))
      && Large(room) != Damaged(room)
  {
    var room, n := Room(s), |s.slots|;
    Checks(room);
    OpsAre(room);
    hide *;
    var u, m := AfterC(s);
    StepD(s, u);
    StepGet(s, u);
    SpaciousOf(s, 4, u, m);
    var m' := Fifth(s, u, m);
    Sixth(s, Compacted(u), m');
  }

  lemma GetStep(c: Store, m: Dict, key: seq<byte>, room: nat, n: nat)
    requires Valid(c)
    ensures StoreStep(c, GetOp(key)).1 == Fetched(FetchedBytes(c, key))
    ensures Name(key) in m ==> DictStep(m, GetOp(key), room, n).1 == Fetched(Some(m[Name(key)]))
  {
    hide FetchedBytes, Valid, Name;
  }

  lemma Fifth(s: Store, u: Store, m: Dict) returns (m': Dict)
    requires Along(s, 4, u, m) && Valid(u) && !Safe(u, PutOp(D, [9])) && B in m
    ensures Along(s, 5, StoreStep(u, PutOp(D, [9])).0, m') && !SafeRun(s, Ops(Room(s))) && B in m' && m'[B] == m[B]
  {
    var op := PutOp(D, [9]);
    OpsAre(Room(s));
    Names();
    assert B != D;
    hide *;
    OneOn(s, 4, u, m, op);
    DictStepElsewhere(m, op, Room(s), |s.slots|, B);
    m' := DictStep(m, op, Room(s), |s.slots|).0;
  }

  lemma Sixth(s: Store, c: Store, m: Dict)
    requires Along(s, 5, c, m) && Valid(c) && B in m
    ensures StoreRun(s, Ops(Room(s))).1[5] == Fetched(FetchedBytes(c, B))
    ensures DictRun(map[], Ops(Room(s)), Room(s), |s.slots|).1[5] == Fetched(Some(m[B]))
  {
    OpsAre(Room(s));
    Names();
    hide *;
    OneOn(s, 5, c, m, GetOp(B));
    GetStep(c, m, B, Room(s), |s.slots|);
  }

  /** In particular with the constants of the source: 1024 slots, 104857600 bytes, data from byte 540704. */
  lemma InTheSource(file: Store)
    requires SharedCacheClass.CacheFile(file)
    ensures var s := Cleared(file);
      && Valid(s) && Room(s) == 104316896
      && StoreRun(s, Ops(Room(s))).1[5] == Fetched(Some(Damaged(Room(s))))
      && DictRun(map[], Ops(Room(s)), Room(s), 1024).1[5] == Fetched(Some(Large(Room(s))))
  {
    ClearedValid(file);
    hide Ops, StoreRun, DictRun, SafeRun, Valid, Large, Damaged;
    ClearedTwice(file);
    WrongBytesReturned(Cleared(file));
  }

  lemma ClearedTwice(s: Store)
    ensures Cleared(Cleared(s)) == Cleared(s)
  {
  }
}
