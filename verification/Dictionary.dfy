/** What the cache is meant to be: a finite map from names to byte strings, with room for `capacity` bytes and
    `slotCount` entries. */
module Dictionary {
  import opened Words
  import opened Store

  type Dict = map<seq<byte>, seq<byte>>

  datatype Op =
    | PutOp(key: seq<byte>, data: seq<byte>)
    | GetOp(key: seq<byte>)
    | RemoveOp(key: seq<byte>)
    | ClearOp

  datatype Option<+T> = None | Some(value: T)

  datatype Outcome =
    | Stored(ok: bool)
    | Fetched(found: Option<seq<byte>>)
    | Removed(ok: bool)
    | AllCleared

  /** Total length of the values. */
  ghost function DictBytes(m: Dict): nat {
    if m == map[] then 0 else
      var k :| k in m;
      |m[k]| + DictBytes(m - {k})
  }

  ghost predicate Fits(m: Dict, key: seq<byte>, data: seq<byte>, capacity: nat, slotCount: nat) {
    && data != []
    && DictBytes(m) + |data| <= capacity
    && (Name(key) in m || |m| < slotCount)
  }

  /** One operation on the map. An overwrite must find room beside the value it replaces. */
  ghost function DictStep(m: Dict, op: Op, capacity: nat, slotCount: nat): (Dict, Outcome) {
    match op
    case PutOp(key, data) =>
      if Fits(m, key, data, capacity, slotCount) then (m[Name(key) := data], Stored(true)) else (m, Stored(false))
    case GetOp(key) =>
      (m, Fetched(if Name(key) in m then Some(m[Name(key)]) else None))
    case RemoveOp(key) =>
      (m - {Name(key)}, Removed(Name(key) in m))
    case ClearOp =>
      (map[], AllCleared)
  }

  // ----- the total does not depend on the order of summing

  lemma {:induction false} DictBytesWithout(m: Dict, k: seq<byte>)
    requires k in m
    ensures DictBytes(m) == |m[k]| + DictBytes(m - {k})
    decreases |m|
  {
    var x :| x in m && DictBytes(m) == |m[x]| + DictBytes(m - {x});
    if x != k {
      var a, b := m - {x}, m - {k};
      DictBytesWithout(a, k);
      DictBytesWithout(b, x);
      assert a - {k} == b - {x};
    }
  }

  lemma DictBytesPut(m: Dict, k: seq<byte>, v: seq<byte>)
    ensures DictBytes(m[k := v]) == DictBytes(m) + |v| - (if k in m then |m[k]| else 0)
  {
    DictBytesWithout(m[k := v], k);
    assert m[k := v] - {k} == m - {k};
    if k in m {
      DictBytesWithout(m, k);
    } else {
      assert m - {k} == m;
    }
  }

  /** An operation on other names leaves a name alone. */
  lemma DictStepElsewhere(m: Dict, op: Op, capacity: nat, slotCount: nat, k: seq<byte>)
    requires op.PutOp? || op.RemoveOp? ==> Name(op.key) != k
    requires !op.ClearOp?
    ensures var m' := DictStep(m, op, capacity, slotCount).0;
      (k in m' <==> k in m) && (k in m ==> m'[k] == m[k])
  {
  }
}
