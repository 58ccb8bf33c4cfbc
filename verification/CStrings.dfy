/** C strings inside byte buffers. The end of a sequence reads as the terminating zero, as `c_str()` supplies it. */
module CStrings {
  import opened Words

  function Head(s: seq<byte>): byte {
    if s == [] then 0 else s[0]
  }

  function Tail(s: seq<byte>): seq<byte> {
    if s == [] then [] else s[1..]
  }

  /** The characters before the terminator, at most `n` of them. */
  function Cut(s: seq<byte>, n: nat): (t: seq<byte>)
    ensures |t| <= n && |t| <= |s| && t == s[..|t|]
    ensures 0 !in t
    decreases n
  {
    if n == 0 || Head(s) == 0 then [] else [s[0]] + Cut(s[1..], n - 1)
  }

  /** `strncmp(a, b, n) == 0`. */
  predicate StrncmpEqual(a: seq<byte>, b: seq<byte>, n: nat)
    decreases n
  {
    n == 0 || (Head(a) == Head(b) && (Head(a) == 0 || StrncmpEqual(Tail(a), Tail(b), n - 1)))
  }

  /** The `n` bytes `strncpy(dst, src, n)` writes: the string, then zeros. */
  function Strncpy(src: seq<byte>, n: nat): (dst: seq<byte>)
    ensures |dst| == n
    decreases n
  {
    if n == 0 then [] else [Head(src)] + Strncpy(if Head(src) == 0 then [] else Tail(src), n - 1)
  }

  /** Two strings compare equal over `n` characters exactly when their cuts at `n` are the same. */
  lemma {:induction false} StrncmpIffCut(a: seq<byte>, b: seq<byte>, n: nat)
    ensures StrncmpEqual(a, b, n) <==> Cut(a, n) == Cut(b, n)
    decreases n
  {
    if n > 0 && Head(a) == Head(b) && Head(a) != 0 {
      StrncmpIffCut(a[1..], b[1..], n - 1);
      assert Cut(a, n)[1..] == Cut(a[1..], n - 1) && Cut(b, n)[1..] == Cut(b[1..], n - 1);
    } else if n > 0 && Head(a) != Head(b) {
      if Head(a) != 0 && Head(b) != 0 {
        assert Cut(a, n)[0] != Cut(b, n)[0];
      }
    }
  }

  /** A copied string reads back as itself, cut to the room there was. */
  lemma {:induction false} CutOfStrncpy(src: seq<byte>, rest: seq<byte>, n: nat)
    ensures Cut(Strncpy(src, n) + rest, n) == Cut(src, n)
    decreases n
  {
    if n > 0 && Head(src) != 0 {
      CutOfStrncpy(Tail(src), rest, n - 1);
      assert (Strncpy(src, n) + rest)[1..] == Strncpy(Tail(src), n - 1) + rest;
    }
  }

  lemma CutCons(x: byte, s: seq<byte>, n: nat)
    requires x != 0 && n > 0
    ensures Cut([x] + s, n) == [x] + Cut(s, n - 1)
  {
    assert ([x] + s)[1..] == s;
  }

  /** A string without zeros that fits is not cut at all. */
  lemma {:induction false} CutOfText(s: seq<byte>, n: nat)
    requires |s| <= n && 0 !in s
    ensures Cut(s, n) == s
    decreases n
  {
    if s != [] {
      CutOfText(s[1..], n - 1);
    }
  }

  /** The cut of a full field, said of its bytes. */
  lemma {:induction false} CutIff(f: seq<byte>, n: nat, t: seq<byte>)
    requires |f| == n
    ensures Cut(f, n) == t <==> |t| <= n && f[..|t|] == t && 0 !in t && (|t| < n ==> f[|t|] == 0)
    decreases n
  {
    if n > 0 {
      if t != [] {
        CutIff(f[1..], n - 1, t[1..]);
        assert t == [t[0]] + t[1..];
        if |t| <= n {
          assert f[..|t|] == [f[0]] + f[1..][..|t| - 1];
          assert |t| < n ==> f[|t|] == f[1..][|t| - 1];
        }
      }
    }
  }
}
