/** `output_hex` of picosha2.h and `hash_route` of common.h. Strings are their bytes. */
module RouteHash {
  import opened Words
  import opened Hashing
  import F = Fips180
  import R = DigestRelation

  /** A lower-case hexadecimal digit: '0'..'9' are 48..57, 'a'..'f' are 97..102. */
  function HexDigit(n: nat): byte
    requires n < 16
  {
    if n < 10 then 48 + n else 87 + n
  }

  function HexByte(b: byte): seq<byte> {
    [HexDigit(b / 16), HexDigit(b % 16)]
  }

  function Hex(bytes: seq<byte>): (s: seq<byte>)
    ensures |s| == 2 * |bytes|
  {
    if bytes == [] then [] else Hex(bytes[..|bytes| - 1]) + HexByte(bytes[|bytes| - 1])
  }

  function HashRoute(route: seq<byte>): (s: seq<byte>)
    ensures |s| == 64
  {
    Hex(F.Sha256(route))
  }

  predicate IsHexDigit(c: byte) {
    48 <= c <= 57 || 97 <= c <= 102
  }

  /** Hexadecimal text holds no byte that could end a C string early. */
  lemma {:induction false} HexIsText(bytes: seq<byte>)
    ensures forall i :: 0 <= i < |Hex(bytes)| ==> IsHexDigit(Hex(bytes)[i])
  {
    if bytes != [] {
      HexIsText(bytes[..|bytes| - 1]);
    }
  }

  /** What a reader makes of a character: '0' to '9' are 0 to 9, 'a' to 'f' are 10 to 15. */
  function DigitValue(c: byte): int {
    if '0' as int <= c <= '9' as int then c - '0' as int
    else if 'a' as int <= c <= 'f' as int then 10 + c - 'a' as int
    else -1
  }

  /** Every two characters spell one byte, the higher half first. */
  ghost predicate Spells(s: seq<byte>, bytes: seq<byte>) {
    && |s| == 2 * |bytes|
    && (forall i :: 0 <= i < |s| ==> IsHexDigit(s[i]))
    && (forall i :: 0 <= i < |bytes| ==> 16 * DigitValue(s[2 * i]) + DigitValue(s[2 * i + 1]) == bytes[i])
  }

  /** Reading recovers the bytes. */
  lemma {:induction false} HexSpells(bytes: seq<byte>)
    ensures Spells(Hex(bytes), bytes)
  {
    if bytes != [] {
      var n := |bytes| - 1;
      HexSpells(bytes[..n]);
      var s, t := Hex(bytes), Hex(bytes[..n]);
      assert s == t + HexByte(bytes[n]);
      forall i | 0 <= i < |bytes|
        ensures 16 * DigitValue(s[2 * i]) + DigitValue(s[2 * i + 1]) == bytes[i]
      {
        if i < n {
          assert s[2 * i] == t[2 * i] && s[2 * i + 1] == t[2 * i + 1] && bytes[..n][i] == bytes[i];
        }
      }
    }
  }

  /** So the text determines the bytes. */
  lemma HexInjective(a: seq<byte>, b: seq<byte>)
    requires Hex(a) == Hex(b)
    ensures a == b
  {
    hide Hex, DigitValue;
    HexSpells(a);
    HexSpells(b);
    forall i | 0 <= i < |a|
      ensures a[i] == b[i]
    {
      assert 16 * DigitValue(Hex(a)[2 * i]) + DigitValue(Hex(a)[2 * i + 1]) == a[i];
    }
  }

  /** `output_hex`: every byte as two digits. */
  method OutputHex(bytes: seq<byte>) returns (s: seq<byte>)
    ensures s == Hex(bytes) && Spells(s, bytes)
  {
    s := [];
    var first := 0;
    while first != |bytes|
      invariant 0 <= first <= |bytes|
      invariant s == Hex(bytes[..first])
      decreases |bytes| - first
    {
      assert bytes[..first + 1][..first] == bytes[..first];
      s := s + HexByte(bytes[first]);
      first := first + 1;
    }
    assert bytes[..first] == bytes;
    HexSpells(bytes);
  }

  /** `s` is 64 characters that spell the SHA-256 digest of the name. */
  ghost predicate SpellsDigest(s: seq<byte>, route: seq<byte>) {
    exists d :: R.IsDigest(route, d) && Spells(s, d)
  }

  lemma HashRouteSpells(route: seq<byte>)
    ensures SpellsDigest(HashRoute(route), route)
  {
    hide R.IsDigest, Spells, F.Sha256;
    R.DigestIff(route, F.Sha256(route));
    HexSpells(F.Sha256(route));
  }

  /** `hash_route`. */
  method ComputeHashRoute(route: seq<byte>) returns (s: seq<byte>)
    ensures s == HashRoute(route) && SpellsDigest(s, route)
  {
    hide R.IsDigest, Spells;
    var digest := Hash256(route);
    s := OutputHex(digest);
  }
}
