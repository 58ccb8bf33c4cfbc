/** A way to stay safe: puts that never make a later live blob have to move right at the next compaction. Such runs
    are exact; there are others (`ExactRuns.SafeRun` is the exact condition). */
module OrderlyRuns {
  import opened Words
  import opened Compaction
  import opened Checksums
  import opened Store
  import opened Dictionary
  import opened Refinement
  import opened ExactRuns

  /** What a put may cost the slots after the one it fills: if it changes that slot's size by d, every later live
      blob must lie at least d to the right of its place, once any compaction the put needs has been done. */
  ghost predicate LeavesRoom(s: Store, key: seq<byte>, data: seq<byte>)
    requires Valid(s)
  {
    CompactedValid(s);
    var c := MakeRoom(s, |data|);
    var i := SlotFor(c.slots, key);
    Put(s, key, data).1 ==> RoomAfter(c, i, |data|)
  }

  ghost predicate RoomAfter(c: Store, i: int, length: nat)
    requires 0 <= i < |c.slots|
  {
    forall j :: i < j < |c.slots| && Live(c.slots[j]) ==> Slack(c.base, c.slots, j) >= length - Size(c.slots[i])
  }

  ghost predicate Orderly(s: Store, op: Op)
    requires Valid(s)
  {
    op.PutOp? ==> LeavesRoom(s, op.key, op.data)
  }

  ghost predicate OrderlyRun(s: Store, ops: seq<Op>)
    requires Valid(s)
    decreases |ops|
  {
    ops != [] ==> Orderly(s, ops[0]) && OrderlyRun(StoreStep(s, ops[0]).0, ops[1..])
  }

  // ----- the order condition

  lemma CompactedMovesLeft(s: Store)
    requires Valid(s)
    ensures MovesLeft(s.base, Compacted(s).slots)
  {
    CompactedValid(s);
  }

  /** A blob appended to the file lies right of its place; later blobs lose exactly the growth of the slot. */
  lemma AppendedMovesLeftIff(s: Store, i: nat, key: seq<byte>, data: seq<byte>)
    requires Valid(s) && MovesLeft(s.base, s.slots)
    requires i < |s.slots| && data != [] && s.nextOffset + |data| <= s.fileSize
    ensures MovesLeft(s.base, Appended(s, i, key, data).slots) <==> RoomAfter(s, i, |data|)
  {
    hide KeyField, Checksum, LiveBytes;
    var e := NewEntry(key, data, s.nextOffset);
    var t := s.slots[i := e];
    LiveBytesMonotone(s.slots, i, |s.slots|);
    forall j | 0 <= j < |t|
      ensures j != i ==> Slack(s.base, s.slots, j) - Slack(s.base, t, j)
                         == if i < j then |data| - Size(s.slots[i]) else 0
      ensures Slack(s.base, t, i) >= 0
    {
      LiveBytesUpdate(s.slots, i, e, j);
      LiveBytesUpdate(s.slots, i, e, i);
    }
    if RoomAfter(s, i, |data|) {
      forall j | 0 <= j < |t| && Live(t[j])
        ensures Slack(s.base, t, j) >= 0
      {
        assert j != i ==> Live(s.slots[j]) && Slack(s.base, s.slots, j) >= 0;
      }
    }
    if MovesLeft(s.base, t) {
      forall j | i < j < |s.slots| && Live(s.slots[j])
        ensures Slack(s.base, s.slots, j) >= |data| - Size(s.slots[i])
      {
        assert Live(t[j]) && Slack(s.base, t, j) >= 0;
      }
    }
  }

  /** A put keeps the order condition exactly when it leaves room. */
  lemma PutKeepsOrderIff(s: Store, key: seq<byte>, data: seq<byte>)
    requires Valid(s) && MovesLeft(s.base, s.slots)
    ensures MovesLeft(s.base, Put(s, key, data).0.slots) <==> LeavesRoom(s, key, data)
  {
    hide FirstMatch, FirstFree, LiveBytes, MemAfter;
    CompactedValid(s);
    CompactedMovesLeft(s);
    var c := MakeRoom(s, |data|);
    if Put(s, key, data).1 {
      AppendedMovesLeftIff(c, SlotFor(c.slots, key), key, data);
    }
  }

  lemma RemoveKeepsOrder(s: Store, key: seq<byte>)
    requires Valid(s) && MovesLeft(s.base, s.slots)
    ensures MovesLeft(s.base, Remove(s, key).0.slots)
  {
    var i := FindEntry(s.slots, key);
    if i != -1 {
      var t := s.slots[i := EmptyEntry()];
      forall j | 0 <= j < |t| && Live(t[j])
        ensures Slack(s.base, t, j) >= 0
      {
        LiveBytesUpdate(s.slots, i, EmptyEntry(), j);
        assert Slack(s.base, s.slots, j) >= 0;
      }
    }
  }

  // ----- orderly runs are safe

  lemma OrderlyStep(s: Store, op: Op)
    requires Valid(s) && MovesLeft(s.base, s.slots) && Orderly(s, op)
    ensures Safe(s, op) && MovesLeft(s.base, StoreStep(s, op).0.slots) && s.base == StoreStep(s, op).0.base
  {
    hide Valid, LeavesRoom;
    match op
    case PutOp(key, data) => PutShape(s, key, data); hide Put; PutKeepsOrderIff(s, key, data);
    case GetOp(_) =>
    case RemoveOp(key) => RemoveKeepsOrder(s, key);
    case ClearOp =>
  }

  /** An orderly run from a layout in order is safe, and the layout stays in order. */
  lemma {:induction false} OrderlyRunSafe(s: Store, ops: seq<Op>)
    requires Valid(s) && MovesLeft(s.base, s.slots) && OrderlyRun(s, ops)
    ensures SafeRun(s, ops) && MovesLeft(s.base, StoreRun(s, ops).0.slots)
    decreases |ops|
  {
    hide StoreStep, Valid, Safe, Orderly, MovesLeft;
    if ops != [] {
      OrderlyStep(s, ops[0]);
      OrderlyRunSafe(StoreStep(s, ops[0]).0, ops[1..]);
    }
  }

  /** So over every orderly run the outcomes are exactly those of the bounded map. */
  lemma OrderlyRunExact(s: Store, m: Dict, ops: seq<Op>)
    requires Valid(s) && InStep(s, m) && MovesLeft(s.base, s.slots) && OrderlyRun(s, ops)
    ensures StoreRun(s, ops).1 == DictRun(m, ops, Capacity(s), |s.slots|).1
    ensures InStep(StoreRun(s, ops).0, DictRun(m, ops, Capacity(s), |s.slots|).0)
    ensures MovesLeft(s.base, StoreRun(s, ops).0.slots)
  {
    hide InStep, Valid, MovesLeft, OrderlyRun, SafeRun;
    OrderlyRunSafe(s, ops);
    SafeRunExact(s, m, ops);
  }

  // ----- ranges handed out by Get

  /** Neither compacts nor starts over. */
  ghost predicate Gentle(s: Store, op: Op) {
    match op
    case PutOp(_, data) => |data| <= s.fileSize - s.nextOffset
    case ClearOp => false
    case _ => true
  }

  ghost predicate GentleRun(s: Store, ops: seq<Op>)
    requires Valid(s)
    decreases |ops|
  {
    ops != [] ==> Gentle(s, ops[0]) && GentleRun(StoreStep(s, ops[0]).0, ops[1..])
  }

  lemma GentleStep(s: Store, op: Op)
    requires Valid(s) && Gentle(s, op)
    ensures var t := StoreStep(s, op).0;
      s.nextOffset <= t.nextOffset && |t.mem| == |s.mem| && t.mem[..s.nextOffset] == s.mem[..s.nextOffset]
  {
  }

  lemma FoundRange(s: Store, key: seq<byte>)
    requires Valid(s) && Get(s, key).Found?
    ensures var (from, to) := (Get(s, key).offset, Get(s, key).offset + Get(s, key).length);
      s.base <= from < to <= s.nextOffset <= |s.mem| && FetchedBytes(s, key) == Some(s.mem[..s.nextOffset][from..to])
  {
    hide FirstMatch, Checksum, Disjoint, DistinctNames, LiveBytes, UsedCount;
    var e := s.slots[FindEntry(s.slots, key)];
    assert EntryOk(e, s.base, s.nextOffset) && e.used;
    assert s.mem[e.offset..e.offset + e.length] == s.mem[..s.nextOffset][e.offset..e.offset + e.length];
  }

  /** Until something compacts or clears, the bytes a `Get` pointed at stay, even when that very key is overwritten or
      removed. */
  lemma HandedOutRangeStable(s: Store, key: seq<byte>, ops: seq<Op>)
    requires Valid(s) && GentleRun(s, ops) && Get(s, key).Found?
    ensures var t := StoreRun(s, ops).0;
      var (from, to) := (Get(s, key).offset, Get(s, key).offset + Get(s, key).length);
      s.base <= from < to <= |t.mem| && FetchedBytes(s, key) == Some(t.mem[from..to])
  {
    hide Valid, Get, FetchedBytes, StoreRun, GentleRun;
    FoundRange(s, key);
    GentleRunPrefix(s, ops);
    var (from, to) := (Get(s, key).offset, Get(s, key).offset + Get(s, key).length);
    var t := StoreRun(s, ops).0;
    assert t.mem[from..to] == t.mem[..s.nextOffset][from..to];
  }

  lemma {:induction false} GentleRunPrefix(s: Store, ops: seq<Op>)
    requires Valid(s) && GentleRun(s, ops)
    ensures var t := StoreRun(s, ops).0;
      |t.mem| == |s.mem| && s.nextOffset <= |s.mem| && t.mem[..s.nextOffset] == s.mem[..s.nextOffset]
    decreases |ops|
  {
    hide StoreStep;
    TailWithin(s);
    hide Valid;
    if ops != [] {
      var t := StoreStep(s, ops[0]).0;
      GentleStep(s, ops[0]);
      GentleRunPrefix(t, ops[1..]);
      var u := StoreRun(t, ops[1..]).0;
      assert u.mem[..s.nextOffset] == u.mem[..t.nextOffset][..s.nextOffset];
      assert t.mem[..s.nextOffset] == t.mem[..t.nextOffset][..s.nextOffset];
    }
  }

  lemma TailWithin(s: Store)
    requires Valid(s)
    ensures s.nextOffset <= |s.mem|
  {
  }
}
