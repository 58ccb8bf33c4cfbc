/** `CompactCache` of m_v8_shared_cache.cc as a function of the slot table and the bytes of the file: where every
    live blob goes, what the overlapping moves do to the bytes, and exactly when no blob is damaged.

    Blobs are visited in slot order, not in offset order, so a move may land on a blob still to be moved. */
module Compaction {
  import opened Words

  /** `CacheEntryHeader`, without the field `function_name` that nothing uses. */
  datatype Entry = Entry(key: seq<byte>, length: nat, offset: nat, used: bool, checksum: nat)

  predicate Live(e: Entry) {
    e.used && e.length > 0
  }

  function Size(e: Entry): nat {
    if e.used then e.length else 0
  }

  /** Total length of the used slots before `j`. */
  function LiveBytes(slots: seq<Entry>, j: nat): nat
    requires j <= |slots|
  {
    if j == 0 then 0 else LiveBytes(slots, j - 1) + Size(slots[j - 1])
  }

  function TotalBytes(slots: seq<Entry>): nat {
    LiveBytes(slots, |slots|)
  }

  /** How far right of its place after compaction the blob of slot `j` lies. */
  function Slack(base: nat, slots: seq<Entry>, j: nat): int
    requires j < |slots|
  {
    slots[j].offset - base - LiveBytes(slots, j)
  }

  /** No live blob would have to move right. */
  ghost predicate MovesLeft(base: nat, slots: seq<Entry>) {
    forall j :: 0 <= j < |slots| && Live(slots[j]) ==> Slack(base, slots, j) >= 0
  }

  predicate Apart(a: Entry, b: Entry) {
    a.offset + a.length <= b.offset || b.offset + b.length <= a.offset
  }

  ghost predicate Disjoint(slots: seq<Entry>) {
    forall i, j :: 0 <= i < j < |slots| && Live(slots[i]) && Live(slots[j]) ==> Apart(slots[i], slots[j])
  }

  /** All live blobs lie in a file of `size` bytes. */
  ghost predicate Within(slots: seq<Entry>, size: nat) {
    forall j :: 0 <= j < |slots| && Live(slots[j]) ==> slots[j].offset + slots[j].length <= size
  }

  ghost predicate Placeable(base: nat, slots: seq<Entry>, size: nat) {
    Within(slots, size) && base + TotalBytes(slots) <= size
  }

  // ----- what compaction computes

  /** `memmove`. */
  function Move(mem: seq<byte>, dst: nat, src: nat, length: nat): (m: seq<byte>)
    requires dst + length <= |mem| && src + length <= |mem|
    ensures |m| == |mem|
    ensures forall x :: 0 <= x < |mem| ==> m[x] == if dst <= x < dst + length then mem[src + (x - dst)] else mem[x]
  {
    mem[..dst] + mem[src..src + length] + mem[dst + length..]
  }

  /** The slot table once the first `n` slots have been visited. */
  function SlotsAfter(base: nat, slots: seq<Entry>, n: nat): (r: seq<Entry>)
    requires n <= |slots|
    ensures |r| == |slots|
  {
    seq(|slots|, k requires 0 <= k < |slots| =>
      if k < n && Live(slots[k]) then slots[k].(offset := base + LiveBytes(slots, k)) else slots[k])
  }

  /** The bytes once the first `n` slots have been visited. */
  ghost function MemAfter(base: nat, slots: seq<Entry>, mem: seq<byte>, n: nat): (m: seq<byte>)
    requires n <= |slots| && Within(slots, |mem|) && base + LiveBytes(slots, n) <= |mem|
    ensures |m| == |mem|
    decreases n
  {
    if n == 0 then mem else Visit(MemAfter(base, slots, mem, n - 1), slots[n - 1], base + LiveBytes(slots, n - 1))
  }

  /** A visit copies a live blob to `dst`; where it is in place already, the copy changes nothing. */
  function Visit(mem: seq<byte>, e: Entry, dst: nat): (m: seq<byte>)
    requires Live(e) ==> dst + e.length <= |mem| && e.offset + e.length <= |mem|
    ensures |m| == |mem|
  {
    if Live(e) then Move(mem, dst, e.offset, e.length) else mem
  }

  // ----- sums

  lemma {:induction false} LiveBytesMonotone(slots: seq<Entry>, i: nat, j: nat)
    requires i <= j <= |slots|
    ensures LiveBytes(slots, i) <= LiveBytes(slots, j)
    decreases j - i
  {
    if i < j {
      LiveBytesMonotone(slots, i, j - 1);
    }
  }

  /** The sum depends on the sizes only. */
  lemma {:induction false} LiveBytesSame(slots: seq<Entry>, slots': seq<Entry>, j: nat)
    requires j <= |slots| && j <= |slots'|
    requires forall k :: 0 <= k < j ==> Size(slots[k]) == Size(slots'[k])
    ensures LiveBytes(slots, j) == LiveBytes(slots', j)
  {
    if j > 0 {
      LiveBytesSame(slots, slots', j - 1);
    }
  }

  /** Replacing one entry shifts the later sums by the change in size. */
  lemma {:induction false} LiveBytesUpdate(slots: seq<Entry>, i: nat, e: Entry, j: nat)
    requires i < |slots| && j <= |slots|
    ensures LiveBytes(slots[i := e], j) == LiveBytes(slots, j) + (if i < j then Size(e) - Size(slots[i]) else 0)
    decreases j
  {
    if j > 0 {
      LiveBytesUpdate(slots, i, e, j - 1);
    }
  }

  // ----- content: what the moves keep

  /** The bytes of blob `e` are at `at` in `m`, as they were at its offset in `mem`. */
  ghost predicate Intact(mem: seq<byte>, m: seq<byte>, e: Entry, at: nat) {
    && e.offset + e.length <= |mem| && at + e.length <= |m|
    && forall x :: at <= x < at + e.length ==> m[x] == mem[e.offset + (x - at)]
  }

  /** Compaction left every live blob at its new offset as it was at its old one. */
  ghost predicate Preserves(base: nat, slots: seq<Entry>, mem: seq<byte>)
    requires Placeable(base, slots, |mem|)
  {
    forall k :: 0 <= k < |slots| && Live(slots[k]) ==>
      Intact(mem, MemAfter(base, slots, mem, |slots|), slots[k], base + LiveBytes(slots, k))
  }

  /** Moves write between `base` and the end of the compacted blobs, nowhere else. */
  lemma {:induction false} MemFrame(base: nat, slots: seq<Entry>, mem: seq<byte>, n: nat)
    requires n <= |slots| && Within(slots, |mem|) && base + LiveBytes(slots, n) <= |mem|
    ensures forall x :: 0 <= x < |mem| && (x < base || base + LiveBytes(slots, n) <= x) ==>
      MemAfter(base, slots, mem, n)[x] == mem[x]
    decreases n
  {
    if n > 0 {
      MemFrame(base, slots, mem, n - 1);
    }
  }

  ghost predicate AgreeBelow(a: seq<byte>, b: seq<byte>, end: nat) {
    |a| == |b| && forall x :: 0 <= x < end && x < |a| ==> a[x] == b[x]
  }

  /** Later moves never touch what earlier ones placed. */
  lemma {:induction false} PlacedStays(base: nat, slots: seq<Entry>, mem: seq<byte>, i: nat, n: nat)
    requires i <= n <= |slots| && Within(slots, |mem|) && base + LiveBytes(slots, n) <= |mem|
    ensures LiveBytes(slots, i) <= LiveBytes(slots, n)
    ensures AgreeBelow(MemAfter(base, slots, mem, n), MemAfter(base, slots, mem, i), base + LiveBytes(slots, i))
    decreases n
  {
    if i < n {
      PlacedStays(base, slots, mem, i, n - 1);
    }
  }

  /** A copy of an intact blob is intact. */
  lemma MoveIntact(mem: seq<byte>, m: seq<byte>, e: Entry, dst: nat)
    requires |m| == |mem| && dst + e.length <= |m| && Intact(mem, m, e, e.offset)
    ensures Intact(mem, Move(m, dst, e.offset, e.length), e, dst)
  {
    forall x | dst <= x < dst + e.length
      ensures Move(m, dst, e.offset, e.length)[x] == mem[e.offset + (x - dst)]
    {
      var y := e.offset + (x - dst);
      assert m[y] == mem[e.offset + (y - e.offset)];
    }
  }

  /** When the blob of slot `k` does not have to move right, it is still whole when its turn comes: everything
      written so far lies to its left. It then arrives whole at its place. */
  lemma ArrivesWhole(base: nat, slots: seq<Entry>, mem: seq<byte>, k: nat)
    requires k < |slots| && Within(slots, |mem|) && base + LiveBytes(slots, k + 1) <= |mem|
    requires Live(slots[k]) && Slack(base, slots, k) >= 0
    ensures Intact(mem, MemAfter(base, slots, mem, k + 1), slots[k], base + LiveBytes(slots, k))
  {
    MemFrame(base, slots, mem, k);
    var m := MemAfter(base, slots, mem, k);
    assert Intact(mem, m, slots[k], slots[k].offset);
    MoveIntact(mem, m, slots[k], base + LiveBytes(slots, k));
  }

  lemma RoomFor(base: nat, slots: seq<Entry>, size: nat, k: nat)
    requires Placeable(base, slots, size) && k < |slots| && Live(slots[k])
    ensures LiveBytes(slots, k + 1) == LiveBytes(slots, k) + slots[k].length
    ensures Within(slots, size) && base + LiveBytes(slots, k + 1) <= base + LiveBytes(slots, |slots|) <= size
  {
    hide Within;
    LiveBytesMonotone(slots, k + 1, |slots|);
  }

  /** Nothing done after its turn touches it, so it is whole at the end. */
  lemma StaysWhole(base: nat, slots: seq<Entry>, mem: seq<byte>, k: nat)
    requires Placeable(base, slots, |mem|) && k < |slots| && Live(slots[k]) && Slack(base, slots, k) >= 0
    ensures Intact(mem, MemAfter(base, slots, mem, |slots|), slots[k], base + LiveBytes(slots, k))
  {
    hide LiveBytes, Within, MemAfter, Intact, AgreeBelow, Live, Slack, Placeable;
    RoomFor(base, slots, |mem|, k);
    PlacedStays(base, slots, mem, k + 1, |slots|);
    ArrivesWhole(base, slots, mem, k);
    IntactInBoth(mem, MemAfter(base, slots, mem, k + 1), MemAfter(base, slots, mem, |slots|),
                 slots[k], base + LiveBytes(slots, k));
  }

  lemma IntactInBoth(mem: seq<byte>, a: seq<byte>, b: seq<byte>, e: Entry, at: nat)
    requires Intact(mem, a, e, at) && AgreeBelow(b, a, at + e.length)
    ensures Intact(mem, b, e, at)
  {
  }

  lemma MovesLeftPreserves(base: nat, slots: seq<Entry>, mem: seq<byte>)
    requires Placeable(base, slots, |mem|) && MovesLeft(base, slots)
    ensures Preserves(base, slots, mem)
  {
    hide LiveBytes, Within, MemAfter, Intact;
    forall k | 0 <= k < |slots| && Live(slots[k])
      ensures Intact(mem, MemAfter(base, slots, mem, |slots|), slots[k], base + LiveBytes(slots, k))
    {
      StaysWhole(base, slots, mem, k);
    }
  }

  // ----- content: what a move to the right destroys

  /** Ones on the blob of slot `j`, zeros elsewhere. */
  function Marked(slots: seq<Entry>, j: nat, size: nat): (m: seq<byte>)
    requires j < |slots|
    ensures |m| == size
  {
    seq(size, x => if OffBlob(slots[j], x) then 0 else 1)
  }

  predicate OffBlob(e: Entry, x: int) {
    x < e.offset || e.offset + e.length <= x
  }

  ghost predicate ZeroBlob(m: seq<byte>, e: Entry) {
    forall x :: 0 <= x < |m| && !OffBlob(e, x) ==> m[x] == 0
  }

  /** Every live blob but that of slot `j` consists of zeros, and so does what lies between `base` and `end`. */
  ghost predicate OthersZero(m: seq<byte>, slots: seq<Entry>, j: nat, base: nat, end: nat) {
    && (forall x :: base <= x < end && x < |m| ==> m[x] == 0)
    && (forall k :: 0 <= k < |slots| && k != j && Live(slots[k]) ==> ZeroBlob(m, slots[k]))
  }

  /** Before slot `j` is visited, moves copy only zeros, so everything they have placed is zero. */
  lemma {:induction false} ZerosPlaced(base: nat, slots: seq<Entry>, mem: seq<byte>, j: nat, n: nat)
    requires n <= j < |slots| && Within(slots, |mem|) && base + LiveBytes(slots, n) <= |mem|
    requires OthersZero(mem, slots, j, base, base)
    ensures OthersZero(MemAfter(base, slots, mem, n), slots, j, base, base + LiveBytes(slots, n))
    decreases n
  {
    hide OthersZero;
    if n > 0 {
      ZerosPlaced(base, slots, mem, j, n - 1);
      if Live(slots[n - 1]) {
        CopiesZeros(MemAfter(base, slots, mem, n - 1), slots, n - 1, j, base, base + LiveBytes(slots, n - 1));
      }
    }
  }

  lemma CopiesZeros(m: seq<byte>, slots: seq<Entry>, i: nat, j: nat, base: nat, dst: nat)
    requires i < |slots| && i != j && Live(slots[i])
    requires base <= dst && dst + slots[i].length <= |m| && slots[i].offset + slots[i].length <= |m|
    requires OthersZero(m, slots, j, base, dst)
    ensures OthersZero(Move(m, dst, slots[i].offset, slots[i].length), slots, j, base, dst + slots[i].length)
  {
    var e := slots[i];
    assert ZeroBlob(m, e);
    forall x | dst <= x < dst + e.length
      ensures Move(m, dst, e.offset, e.length)[x] == 0
    {
      assert !OffBlob(e, e.offset + (x - dst));
    }
    hide Move;
    forall k | 0 <= k < |slots| && k != j && Live(slots[k])
      ensures ZeroBlob(Move(m, dst, e.offset, e.length), slots[k])
    {
      assert ZeroBlob(m, slots[k]);
    }
  }

  /** A blob that would move right has its first byte overwritten before its turn: whatever stood there, a zero
      arrives. */
  lemma FirstByteLost(base: nat, slots: seq<Entry>, mem: seq<byte>, j: nat)
    requires j < |slots| && Placeable(base, slots, |mem|)
    requires Live(slots[j]) && base <= slots[j].offset && Slack(base, slots, j) < 0
    requires OthersZero(mem, slots, j, base, base)
    ensures base + LiveBytes(slots, j) < |mem|
    ensures MemAfter(base, slots, mem, |slots|)[base + LiveBytes(slots, j)] == 0
  {
    var from, at := slots[j].offset, base + LiveBytes(slots, j);
    RoomFor(base, slots, |mem|, j);
    PlacedStays(base, slots, mem, j + 1, |slots|);
    ZerosPlaced(base, slots, mem, j, j);
    assert MemAfter(base, slots, mem, j)[from] == 0;
    assert MemAfter(base, slots, mem, j + 1)[at] == 0;
  }

  lemma MarkedOthersZero(base: nat, slots: seq<Entry>, size: nat, j: nat)
    requires j < |slots| && Disjoint(slots) && Live(slots[j])
    ensures OthersZero(Marked(slots, j, size), slots, j, base, base)
  {
    forall k | 0 <= k < |slots| && k != j && Live(slots[k])
      ensures ZeroBlob(Marked(slots, j, size), slots[k])
    {
      assert Apart(slots[k], slots[j]);
    }
  }

  /** So for every layout some content loses the blob. */
  lemma MoveRightDamages(base: nat, slots: seq<Entry>, size: nat, j: nat)
    requires j < |slots| && Placeable(base, slots, size) && Disjoint(slots)
    requires Live(slots[j]) && base <= slots[j].offset && Slack(base, slots, j) < 0
    ensures var m := MemAfter(base, slots, Marked(slots, j, size), |slots|);
      !Intact(Marked(slots, j, size), m, slots[j], base + LiveBytes(slots, j))
    ensures !Preserves(base, slots, Marked(slots, j, size))
  {
    hide MemAfter, LiveBytes;
    var mem, at := Marked(slots, j, size), base + LiveBytes(slots, j);
    MarkedOthersZero(base, slots, size, j);
    FirstByteLost(base, slots, mem, j);
    assert mem[slots[j].offset + (at - at)] == 1;
  }

  /** Compaction keeps every live blob, whatever the bytes, exactly when no live blob would move right. */
  lemma CompactionSafeIff(base: nat, slots: seq<Entry>, size: nat)
    requires Placeable(base, slots, size) && Disjoint(slots)
    requires forall k :: 0 <= k < |slots| && Live(slots[k]) ==> base <= slots[k].offset
    ensures MovesLeft(base, slots) <==> forall mem: seq<byte> | |mem| == size :: Preserves(base, slots, mem)
  {
    if MovesLeft(base, slots) {
      forall mem: seq<byte> | |mem| == size
        ensures Preserves(base, slots, mem)
      {
        MovesLeftPreserves(base, slots, mem);
      }
    } else {
      var j :| 0 <= j < |slots| && Live(slots[j]) && Slack(base, slots, j) < 0;
      MoveRightDamages(base, slots, size, j);
      assert |Marked(slots, j, size)| == size;
    }
  }
}
