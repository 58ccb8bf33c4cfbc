/** How the handlers of cache_server.cpp name their entries: an IR graph under its hash, bytecode under the hash with
    a prefix. Exactly when two such entries are the same entry of the cache. */
module CacheKeys {
  import opened Words
  import opened CStrings
  import opened Messages
  import opened Store
  import RouteHash

  datatype Kind = IrGraph | Bytecode

  function Prefix(): seq<byte> {
    Text("bytecode_")
  }

  function CacheKey(kind: Kind, hash: seq<byte>): seq<byte> {
    if kind.Bytecode? then Prefix() + hash else hash
  }

  /** The key under which the bytes for a hash are kept, character by character. */
  lemma KeyIs(kind: Kind, hash: seq<byte>)
    ensures kind.IrGraph? ==> CacheKey(kind, hash) == hash
    ensures kind.Bytecode? ==>
      var k := CacheKey(kind, hash);
      && |k| == 9 + |hash| && k[9..] == hash
      && forall i :: 0 <= i < 9 ==> k[i] == "bytecode_"[i] as nat
  {
    PrefixText();
  }

  function First(s: seq<byte>, n: nat): seq<byte> {
    if |s| <= n then s else s[..n]
  }

  lemma {:induction false} CutIsFirst(s: seq<byte>, n: nat)
    requires 0 !in s
    ensures Cut(s, n) == First(s, n)
    decreases n
  {
    if n > 0 && s != [] {
      CutIsFirst(s[1..], n - 1);
    }
  }

  lemma PrefixText()
    ensures |Prefix()| == 9 && 0 !in Prefix()
    ensures forall i :: 0 <= i < 9 ==> Prefix()[i] == "bytecode_"[i] as nat
  {
    var s := "bytecode_";
    forall i | 0 <= i < 9
      ensures Prefix()[i] == s[i] as nat != 0
    {
    }
  }

  lemma PrefixedName(hash: seq<byte>)
    requires 0 !in hash
    ensures Name(CacheKey(Bytecode, hash)) == Prefix() + First(hash, 246)
  {
    PrefixText();
    CutIsFirst(Prefix() + hash, KEY_FIELD - 1);
  }

  /** Exactly when two hashes name the same entry. */
  lemma SameEntryIff(kind: Kind, hash: seq<byte>, kind': Kind, hash': seq<byte>)
    requires 0 !in hash && 0 !in hash'
    ensures kind == kind' == IrGraph ==>
      (Name(CacheKey(kind, hash)) == Name(CacheKey(kind', hash')) <==> First(hash, 255) == First(hash', 255))
    ensures kind == kind' == Bytecode ==>
      (Name(CacheKey(kind, hash)) == Name(CacheKey(kind', hash')) <==> First(hash, 246) == First(hash', 246))
    ensures kind == Bytecode && kind' == IrGraph ==>
      (Name(CacheKey(kind, hash)) == Name(CacheKey(kind', hash'))
       <==> Prefix() <= hash' && First(hash'[|Prefix()|..], 246) == First(hash, 246))
  {
    hide Cut, Prefix, Text;
    PrefixText();
    PrefixedName(hash);
    PrefixedName(hash');
    CutIsFirst(hash, KEY_FIELD - 1);
    CutIsFirst(hash', KEY_FIELD - 1);
    var p := Prefix();
    if kind == kind' == Bytecode {
      assert (p + First(hash, 246))[9..] == First(hash, 246) && (p + First(hash', 246))[9..] == First(hash', 246);
    } else if kind == Bytecode && kind' == IrGraph {
      var n := First(hash', 255);
      if n == p + First(hash, 246) {
        assert n[..9] == p && n[9..] == First(hash, 246);
        assert hash'[..9] == n[..9];
        assert First(hash'[9..], 246) == n[9..];
      }
      if p <= hash' && First(hash'[9..], 246) == First(hash, 246) {
        assert n == p + First(hash'[9..], 246);
      }
    }
  }

  /** A hash the two kinds of entry can share safely. */
  predicate Proper(kind: Kind, hash: seq<byte>) {
    0 !in hash && |hash| <= 246 && (kind == IrGraph ==> !(Prefix() <= hash))
  }

  /** Proper hashes name different entries whenever the kinds or the hashes differ. */
  lemma ProperKeysInjective(kind: Kind, hash: seq<byte>, kind': Kind, hash': seq<byte>)
    requires Proper(kind, hash) && Proper(kind', hash')
    ensures Name(CacheKey(kind, hash)) == Name(CacheKey(kind', hash')) <==> kind == kind' && hash == hash'
  {
    hide Cut, Prefix, Text;
    SameEntryIff(kind, hash, kind', hash');
    SameEntryIff(kind', hash', kind, hash);
  }

  /** In particular hexadecimal hashes, such as SHA-256 ones, are proper for both kinds. */
  lemma HexHashProper(kind: Kind, hash: seq<byte>)
    requires |hash| <= 246 && forall i :: 0 <= i < |hash| ==> RouteHash.IsHexDigit(hash[i])
    ensures Proper(kind, hash)
  {
    PrefixText();
    if |hash| >= 9 {
      assert Prefix()[1] == 'y' as nat;
      assert hash[1] != Prefix()[1];
    }
  }
}
