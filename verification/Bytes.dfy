/** Bytes, machine words and their order in memory, as the codec of jni/jce uses them. */
module Bytes {

  type byte = x: int | 0 <= x < 256

  function Pow256(k: nat): (p: nat)
    ensures p >= 1
  {
    if k == 0 then 1 else 256 * Pow256(k - 1)
  }

  /** The k bytes an unsigned value occupies in the memory of a little-endian machine. */
  function Little(n: nat, k: nat): (s: seq<byte>)
    ensures |s| == k
  {
    if k == 0 then [] else [n % 256] + Little(n / 256, k - 1)
  }

  function FromLittle(s: seq<byte>): (n: nat)
    ensures n < Pow256(|s|)
  {
    if s == [] then 0 else s[0] + 256 * FromLittle(s[1..])
  }

  lemma {:induction false} LittleRoundTrip(n: nat, k: nat)
    requires n < Pow256(k)
    ensures FromLittle(Little(n, k)) == n
  {
    if k == 0 {
    } else {
      LittleRoundTrip(n / 256, k - 1);
      assert Little(n, k)[1..] == Little(n / 256, k - 1);
    }
  }

  /** Big-endian ("network order") value of a byte string. */
  function FromBig(s: seq<byte>): nat
  {
    if s == [] then 0 else FromBig(s[..|s| - 1]) * 256 + s[|s| - 1]
  }

  function Reverse(s: seq<byte>): (r: seq<byte>)
    ensures |r| == |s|
    ensures forall i :: 0 <= i < |s| ==> r[i] == s[|s| - 1 - i]
  {
    if s == [] then [] else Reverse(s[1..]) + [s[0]]
  }

  lemma ReverseTwice(s: seq<byte>)
    ensures Reverse(Reverse(s)) == s
  {
  }

  lemma {:induction false} ReverseIsBig(s: seq<byte>)
    ensures FromBig(Reverse(s)) == FromLittle(s)
  {
    if s == [] {
    } else {
      ReverseIsBig(s[1..]);
      assert Reverse(s)[..|s| - 1] == Reverse(s[1..]);
    }
  }

  /** htons/htonl and their inverses on a little-endian machine, acting on a word's memory. */
  function Hton(mem: seq<byte>): (r: seq<byte>)
    ensures |r| == |mem|
  {
    Reverse(mem)
  }

  /** jce_htonll: the two 32-bit halves change places and each is passed through htonl. */
  function Htonll(mem: seq<byte>): (r: seq<byte>)
    requires |mem| == 8
    ensures |r| == 8
  {
    Hton(mem[4..]) + Hton(mem[..4])
  }

  /** jce_htonll reverses all eight bytes and undoes itself. */
  lemma HtonllReverses(mem: seq<byte>)
    requires |mem| == 8
    ensures Htonll(mem) == Reverse(mem)
    ensures Htonll(Htonll(mem)) == mem
  {
    HtonllIsReverse(mem);
    HtonllIsReverse(Reverse(mem));
    ReverseTwice(mem);
  }

  lemma HtonllIsReverse(mem: seq<byte>)
    requires |mem| == 8
    ensures Htonll(mem) == Reverse(mem)
  {
    hide Reverse;
    var lo, hi := mem[..4], mem[4..];
    forall i | 0 <= i < 8
      ensures (Reverse(hi) + Reverse(lo))[i] == mem[7 - i]
    {
      if i < 4 {
        assert Reverse(hi)[i] == hi[3 - i];
      } else {
        assert Reverse(lo)[i - 4] == lo[7 - i];
      }
    }
  }

  // Two's complement in k bytes.

  predicate FitsSigned(n: int, k: nat)
  {
    0 <= 2 * n + Pow256(k) < 2 * Pow256(k)
  }

  function Unsigned(n: int, k: nat): (u: nat)
    requires FitsSigned(n, k)
    ensures u < Pow256(k)
  {
    if n < 0 then n + Pow256(k) else n
  }

  function Signed(u: nat, k: nat): (n: int)
    requires u < Pow256(k)
  {
    if 2 * u < Pow256(k) then u else u - Pow256(k)
  }

  /** Conversion to Int32 by dropping high bits. */
  function Wrap32(n: int): (r: int)
    ensures -0x8000_0000 <= r < 0x8000_0000
    ensures -0x8000_0000 <= n < 0x8000_0000 ==> r == n
    ensures (n - r) % 0x1_0000_0000 == 0
  {
    (n + 0x8000_0000) % 0x1_0000_0000 - 0x8000_0000
  }

  /** A byte string found in a buffer at a position. */
  predicate At(buf: seq<byte>, cur: nat, s: seq<byte>)
  {
    cur + |s| <= |buf| && buf[cur..cur + |s|] == s
  }

  lemma AtSplit(buf: seq<byte>, cur: nat, a: seq<byte>, b: seq<byte>)
    requires At(buf, cur, a + b)
    ensures At(buf, cur, a) && At(buf, cur + |a|, b)
  {
    assert a == (a + b)[..|a|];
    assert b == (a + b)[|a|..];
  }

  lemma AtJoin(buf: seq<byte>, cur: nat, a: seq<byte>, b: seq<byte>)
    requires At(buf, cur, a) && At(buf, cur + |a|, b)
    ensures At(buf, cur, a + b)
  {
    assert buf[cur..cur + |a + b|] == buf[cur..cur + |a|] + buf[cur + |a|..cur + |a| + |b|];
  }

  /** The buffer ends inside s: from cur on it holds a proper prefix of s and nothing more. */
  predicate Cut(buf: seq<byte>, cur: nat, s: seq<byte>)
  {
    cur <= |buf| < cur + |s| && buf[cur..] == s[..|buf| - cur]
  }

  lemma CutSplit(buf: seq<byte>, cur: nat, a: seq<byte>, b: seq<byte>)
    requires Cut(buf, cur, a + b)
    ensures Cut(buf, cur, a) || (At(buf, cur, a) && Cut(buf, cur + |a|, b))
  {
    var k := |buf| - cur;
    if k < |a| {
      assert (a + b)[..k] == a[..k];
    } else {
      assert buf[cur..cur + |a|] == buf[cur..][..|a|] == (a + b)[..k][..|a|] == a;
      assert buf[cur + |a|..] == buf[cur..][|a|..] == (a + b)[..k][|a|..] == b[..k - |a|];
    }
  }
}
