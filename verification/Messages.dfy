/** The message layouts of common.h, with `char` arrays and packed integers as bytes. Sizes are those the
    structures have on 64-bit Linux. */
module Messages {
  import opened Words
  import opened CStrings

  const MAX_MESSAGE_SIZE: nat := 4096 * 5
  const MESSAGE_HEADER: nat := 264
  const HASH_FIELD: nat := 256
  const REQUEST_HEADER: nat := 260
  const BLOB_REPLY_HEADER: nat := 136
  const SAVE_REPLY_SIZE: nat := 129

  /** The bytes of an ASCII literal. */
  function Text(s: string): (t: seq<byte>)
    ensures |t| == |s|
  {
    seq(|s|, i requires 0 <= i < |s| => s[i] as nat % 0x100)
  }

  /** Little-endian, as the processor stores a `uint32_t`. */
  function LittleEndian(n: uint32): (b: seq<byte>)
    ensures |b| == 4
  {
    [n % 0x100, n / 0x100 % 0x100, n / 0x1_0000 % 0x100, n / 0x100_0000 % 0x100]
  }

  function FromLittleEndian(b: seq<byte>): uint32
    requires |b| == 4
  {
    Join(b[0], b[1], b[2], b[3])
  }

  function Join(b0: byte, b1: byte, b2: byte, b3: byte): uint32 {
    var n: nat := b0 + 0x100 * (b1 + 0x100 * (b2 + 0x100 * b3));
    n
  }

  /** A `char[256]` filled by `strncpy(field, s, 255)`, whatever its last byte holds. */
  function TextField(s: seq<byte>, last: byte): (f: seq<byte>)
    ensures |f| == HASH_FIELD
  {
    Strncpy(s, HASH_FIELD - 1) + [last]
  }

  /** `std::string(field)`. */
  function FieldText(f: seq<byte>): seq<byte> {
    Cut(f, HASH_FIELD)
  }

  /** A store payload whose size field agrees with its length. */
  predicate WellFormed(payload: seq<byte>) {
    |payload| >= REQUEST_HEADER && |payload| == REQUEST_HEADER + RequestSize(payload)
  }

  /** `SaveBytecodeRequest` and `AddFunctionIRRequest` have the same layout: hash, size, bytes. */
  function StoreRequest(hash: seq<byte>, last: byte, data: seq<byte>): (p: seq<byte>)
    requires |data| < 0x1_0000_0000
    ensures WellFormed(p)
  {
    LittleEndianRoundTrip(|data|);
    var p := TextField(hash, last) + LittleEndian(|data|) + data;
    assert p[HASH_FIELD..REQUEST_HEADER] == LittleEndian(|data|);
    p
  }

  function FetchRequest(hash: seq<byte>, last: byte): seq<byte> {
    TextField(hash, last)
  }

  function RequestHash(payload: seq<byte>): seq<byte>
    requires |payload| >= HASH_FIELD
  {
    FieldText(payload[..HASH_FIELD])
  }

  function RequestSize(payload: seq<byte>): uint32
    requires |payload| >= REQUEST_HEADER
  {
    FromLittleEndian(payload[HASH_FIELD..REQUEST_HEADER])
  }

  function RequestData(payload: seq<byte>): seq<byte>
    requires |payload| >= REQUEST_HEADER
  {
    payload[REQUEST_HEADER..]
  }

  // ----- the layouts byte by byte

  /** The size field is bytes 256 to 259, the least significant first. */
  lemma RequestSizeIs(p: seq<byte>)
    requires |p| >= 260
    ensures RequestSize(p)
         == p[256] as nat + 0x100 * p[257] as nat + 0x1_0000 * p[258] as nat + 0x100_0000 * p[259] as nat
  {
    assert p[256..260][0] == p[256] && p[256..260][1] == p[257] && p[256..260][2] == p[258] && p[256..260][3] == p[259];
  }

  /** A request is well formed exactly when 260 bytes of header are followed by as many bytes as the size field says;
      the bytes to store are those after the header. */
  lemma WellFormedIff(p: seq<byte>)
    ensures WellFormed(p)
        <==> |p| >= 260
             && |p| == 260 + p[256] as nat + 0x100 * p[257] as nat + 0x1_0000 * p[258] as nat
                       + 0x100_0000 * p[259] as nat
    ensures |p| >= 260 ==> RequestData(p) == p[260..]
  {
    hide RequestSize;
    if |p| >= 260 {
      RequestSizeIs(p);
    }
  }

  /** A payload carries the hash `t` exactly when its first bytes are `t`, none of them zero, and a zero follows. */
  lemma RequestHashIff(p: seq<byte>, t: seq<byte>)
    requires |p| >= 256
    ensures RequestHash(p) == t <==> |t| <= 256 && p[..|t|] == t && 0 !in t && (|t| < 256 ==> p[|t|] == 0)
  {
    CutIff(p[..256], 256, t);
    if |t| < 256 {
      assert p[..256][..|t|] == p[..|t|] && p[..256][|t|] == p[|t|];
    } else if |t| == 256 {
      assert p[..256][..256] == p[..256];
    }
  }

  // ----- what is written can be read back

  lemma LittleEndianRoundTrip(n: uint32)
    ensures FromLittleEndian(LittleEndian(n)) == n
  {
    var q := n / 0x100;
    var r := q / 0x100;
    assert r == n / 0x1_0000 && r / 0x100 == n / 0x100_0000;
    assert n == 0x100 * q + n % 0x100 && q == 0x100 * r + q % 0x100 && r == 0x100 * (r / 0x100) + r % 0x100;
    assert r / 0x100 < 0x100;
  }

  /** A text of at most 254 characters survives the field whatever follows it. */
  lemma FieldRoundTrip(s: seq<byte>, last: byte)
    requires 0 !in s && (|s| < 255 || (|s| == 255 && last == 0))
    ensures FieldText(TextField(s, last)) == s
  {
    CutPastCopy(s, HASH_FIELD - 1, last);
  }

  lemma {:induction false} CutPastCopy(s: seq<byte>, n: nat, last: byte)
    requires 0 !in s && (|s| < n || (|s| == n && last == 0))
    ensures Cut(Strncpy(s, n) + [last], n + 1) == s
    decreases n
  {
    if n == 0 {
      assert Strncpy(s, 0) + [last] == [last];
    } else if s != [] {
      CutPastCopy(s[1..], n - 1, last);
      var t := Strncpy(s[1..], n - 1) + [last];
      assert Strncpy(s, n) + [last] == [s[0]] + t;
      hide Strncpy, Cut;
      CutCons(s[0], t, n + 1);
      assert s == [s[0]] + s[1..];
    }
  }

  /** A store request carries its hash, its size and its bytes. */
  lemma StoreRequestRoundTrip(hash: seq<byte>, last: byte, data: seq<byte>)
    requires 0 !in hash && |hash| < 255 && |data| < 0x1_0000_0000
    ensures var p := StoreRequest(hash, last, data);
      && |p| == 260 + |data|
      && RequestHash(p) == hash && RequestSize(p) == |data| && RequestData(p) == data
  {
    hide Strncpy, Cut, LittleEndian;
    FieldRoundTrip(hash, last);
    LittleEndianRoundTrip(|data|);
    var p := StoreRequest(hash, last, data);
    assert p[..HASH_FIELD] == TextField(hash, last);
    assert p[HASH_FIELD..REQUEST_HEADER] == LittleEndian(|data|);
  }

  lemma FetchRequestRoundTrip(hash: seq<byte>, last: byte)
    requires 0 !in hash && |hash| < 255
    ensures |FetchRequest(hash, last)| == 256 && RequestHash(FetchRequest(hash, last)) == hash
  {
    hide Strncpy, Cut;
    FieldRoundTrip(hash, last);
    assert FetchRequest(hash, last)[..HASH_FIELD] == FetchRequest(hash, last);
  }
}
