/** Integers on the wire: one canonical encoding, readable at every width that holds the number. */
module JceIntegers {
  import opened Wrappers
  import opened Bytes
  import opened JceValue
  import opened JceReader

  lemma Powers()
    ensures Pow256(0) == 1
    ensures Pow256(1) == 0x100
    ensures Pow256(2) == 0x1_0000
    ensures Pow256(4) == 0x1_0000_0000
    ensures Pow256(8) == 0x1_0000_0000_0000_0000
  {
  }

  /** A number's width is the least that holds it: it can be read at exactly the widths from there. */
  lemma WidthIsLeast(n: int, w: nat)
    requires FitsSigned(n, 8) && w in {1, 2, 4, 8}
    ensures FitsSigned(n, w) <==> IntWidth(n) <= w
    ensures n != 0 ==> FitsSigned(n, IntWidth(n))
  {
    Powers();
  }

  lemma HeadPeek(buf: seq<byte>, cur: nat, kind: Kind, tag: byte)
    requires At(buf, cur, Head(kind, tag))
    ensures PeekHead(buf, cur) == Some((DataHead(kind, tag), |Head(kind, tag)|))
  {
    var h := Head(kind, tag);
    assert buf[cur] == buf[cur..cur + |h|][0] == h[0];
    if tag >= 15 {
      assert buf[cur + 1] == buf[cur..cur + |h|][1] == h[1];
    }
  }

  /** Two's complement is the remainder modulo the word size. */
  lemma LowBytes(n: int, w: nat)
    requires w in {1, 2, 4, 8} && FitsSigned(n, w)
    ensures n % Pow256(w) == Unsigned(n, w)
    ensures Signed(Unsigned(n, w), w) == n
  {
    Powers();
    if w == 1 {
      assert Pow256(w) == 0x100;
    } else if w == 2 {
      assert Pow256(w) == 0x1_0000;
    } else if w == 4 {
      assert Pow256(w) == 0x1_0000_0000;
    } else {
      assert Pow256(w) == 0x1_0000_0000_0000_0000;
    }
  }

  lemma WordReads(buf: seq<byte>, cur: nat, n: int, w: nat)
    requires w in {1, 2, 4, 8}
    requires FitsSigned(n, w) && At(buf, cur, Wire(n % Pow256(w), w))
    ensures ReadWord(buf, cur, w) == Done(n, cur + w, 0)
  {
    LowBytes(n, w);
    WireRoundTrip(Unsigned(n, w), w);
  }

  lemma IntBodyReads(buf: seq<byte>, cur: nat, n: int, width: nat)
    requires FitsSigned(n, 8) && width in {1, 2, 4, 8}
    requires At(buf, cur, IntBody(n))
    ensures ReadIntBody(buf, cur, IntKind(IntWidth(n)), width) ==
            if FitsSigned(n, width) then Done(n, cur + |IntBody(n)|, 0) else Raised(Mismatch, cur, 0)
  {
    WidthIsLeast(n, width);
    if 0 != IntWidth(n) <= width {
      WordReads(buf, cur, n, IntWidth(n));
    }
  }

  /** SkipToTag on the very field that is wanted. */
  lemma SeekHere(buf: seq<byte>, cur: nat, kind: Kind, tag: byte)
    requires kind != STRUCT_END && At(buf, cur, Head(kind, tag))
    ensures SkipToTag(buf, cur, tag) == Sought(true, cur, 1)
    ensures ReadHead(buf, cur) == Done(DataHead(kind, tag), cur + |Head(kind, tag)|, 1)
  {
    HeadPeek(buf, cur, kind, tag);
  }

  /** Reading an encoded number at a signed width gives the number if it fits that width, and a
      mismatch if it does not. */
  lemma IntReadsBack(buf: seq<byte>, cur: nat, n: int, tag: byte, width: nat)
    requires FitsSigned(n, 8) && width in {1, 2, 4, 8}
    requires At(buf, cur, EncInt(n, tag))
    ensures FitsSigned(n, width) ==> ReadInt(buf, cur, width, tag) == Done(Some(n), cur + |EncInt(n, tag)|, 2)
    ensures !FitsSigned(n, width) ==>
            ReadInt(buf, cur, width, tag).Raised? && ReadInt(buf, cur, width, tag).e == Mismatch
  {
    hide SkipToTag, PeekHead, ReadIntBody, IntBody, FitsSigned, Head;
    var kind := IntKind(IntWidth(n));
    AtSplit(buf, cur, Head(kind, tag), IntBody(n));
    SeekHere(buf, cur, kind, tag);
    IntBodyReads(buf, cur + |Head(kind, tag)|, n, width);
  }

  /** No shorter payload could hold the number, and the payload is its two's complement, big-endian. */
  lemma IntIsShortest(n: int, tag: byte, w: nat)
    requires FitsSigned(n, 8) && w in {1, 2, 4, 8} && FitsSigned(n, w)
    ensures |IntBody(n)| <= w
    ensures n == 0 <==> IntBody(n) == []
    ensures n != 0 ==> FromBig(IntBody(n)) == Unsigned(n, |IntBody(n)|)
  {
    Powers();
    WidthIsLeast(n, w);
    if n != 0 {
      LowBytes(n, IntWidth(n));
      WireIsBigEndian(Unsigned(n, IntWidth(n)), IntWidth(n));
    }
  }

  /** Different numbers never share an encoding, not even as a prefix. */
  lemma IntEncodingIsPrefixFree(m: int, n: int, tag: byte)
    requires FitsSigned(m, 8) && FitsSigned(n, 8)
    requires EncInt(m, tag) <= EncInt(n, tag)
    ensures m == n
  {
    var buf := EncInt(n, tag);
    IntReadsBack(buf, 0, m, tag, 8);
    IntReadsBack(buf, 0, n, tag, 8);
  }
}
