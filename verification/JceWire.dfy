/** The encoding byte by byte, with every number written out: what is on the wire, and what the readers make
    of any bytes. Types are named by the numbers they have there. */
module JceWire {
  import opened Wrappers
  import opened Bytes
  import opened JceValue
  import opened JceIntegers
  import opened JceReader
  import opened JceSchema
  import opened JceLookup
  import opened JceWriting

  // What is written.

  /** The number of a value's type: Char 0, Short 1, Int32 2, Int64 3, Float 4, Double 5, String1 6, String4 7,
      Map 8, List 9, StructBegin 10, ZeroTag 12, SimpleList 13. An integer gets the narrowest that holds it. */
  function TypeNumber(v: Value): (k: nat)
    ensures k < 16
  {
    match v
    case IntV(n) =>
      if n == 0 then 12
      else if -0x80 <= n < 0x80 then 0
      else if -0x8000 <= n < 0x8000 then 1
      else if -0x8000_0000 <= n < 0x8000_0000 then 2
      else 3
    case FloatV(_) => 4
    case DoubleV(_) => 5
    case StringV(s) => if |s| < 256 then 6 else 7
    case BytesV(_) => 13
    case ListV(_) => 9
    case MapV(_) => 8
    case StructV(_) => 10
  }

  /** A head: one byte below tag 15, two from there on. */
  function Announced(k: nat, tag: byte): seq<byte>
    requires k < 16
  {
    if tag < 15 then [16 * tag + k] else [240 + k, tag]
  }

  /** The last k digits of a number to the base 256, the highest first. */
  function Digits(n: nat, k: nat): (s: seq<byte>)
    ensures |s| == k
  {
    if k == 0 then [] else Digits(n / 256, k - 1) + [n % 256]
  }

  lemma DigitsAre(n: nat)
    ensures Digits(n, 2) == [n / 0x100 % 256, n % 256]
    ensures Digits(n, 4) == [n / 0x100_0000 % 256, n / 0x1_0000 % 256, n / 0x100 % 256, n % 256]
  {
    assert Digits(n, 1) == [n % 256] && Digits(n / 0x100, 1) == [n / 0x100 % 256];
    assert n / 0x100 / 0x100 == n / 0x1_0000 && n / 0x1_0000 / 0x100 == n / 0x100_0000;
    assert Digits(n / 0x1_0000, 1) == [n / 0x1_0000 % 256] && Digits(n / 0x100_0000, 1) == [n / 0x100_0000 % 256];
    assert Digits(n / 0x1_0000, 2) == [n / 0x100_0000 % 256, n / 0x1_0000 % 256];
    assert Digits(n / 0x100, 3) == [n / 0x100_0000 % 256, n / 0x1_0000 % 256, n / 0x100 % 256];
  }

  /** A number: nothing for zero, else its two's complement in one, two, four or eight bytes. */
  function WrittenNumber(n: int): seq<byte>
    requires FitsSigned(n, 8)
  {
    Powers();
    var k := TypeNumber(IntV(n));
    if k == 12 then []
    else if k == 0 then Digits(if n < 0 then n + 0x100 else n, 1)
    else if k == 1 then Digits(if n < 0 then n + 0x1_0000 else n, 2)
    else if k == 2 then Digits(if n < 0 then n + 0x1_0000_0000 else n, 4)
    else Digits(if n < 0 then n + 0x1_0000_0000_0000_0000 else n, 8)
  }

  function WrittenInt(n: int, tag: byte): seq<byte>
    requires FitsSigned(n, 8)
  {
    Announced(TypeNumber(IntV(n)), tag) + WrittenNumber(n)
  }

  function Written(v: Value, tag: byte): seq<byte>
    requires Fits(v)
    decreases v, 1
  {
    Announced(TypeNumber(v), tag) + WrittenRest(v)
  }

  /** What follows the head. Counts and the elements of lists have tag 0, keys 0, values 1; vector<Char> has the
      head of a Char before its count; a struct ends with a StructEnd, which is the byte 11. */
  function WrittenRest(v: Value): seq<byte>
    requires Fits(v)
    decreases v, 0
  {
    Powers();
    match v
    case IntV(n) => WrittenNumber(n)
    case FloatV(bits) => Digits(bits, 4)
    case DoubleV(bits) => Digits(bits, 8)
    case StringV(s) => (if |s| < 256 then [|s|] else Digits(|s|, 4)) + s
    case BytesV(b) => [0] + WrittenInt(|b|, 0) + b
    case ListV(items) => WrittenInt(|items|, 0) + WrittenItems(items)
    case MapV(entries) => WrittenInt(|entries|, 0) + WrittenEntries(entries)
    case StructV(fields) => WrittenFields(fields) + [11]
  }

  function WrittenItems(items: seq<Value>): seq<byte>
    requires FitItems(items)
    decreases items
  {
    if items == [] then [] else Written(items[0], 0) + WrittenItems(items[1..])
  }

  function WrittenEntry(e: Entry): seq<byte>
    requires FitsEntry(e)
    decreases e
  {
    Written(e.key, 0) + Written(e.val, 1)
  }

  function WrittenEntries(es: seq<Entry>): seq<byte>
    requires FitEntries(es)
    decreases es
  {
    if es == [] then [] else WrittenEntry(es[0]) + WrittenEntries(es[1..])
  }

  function WrittenField(f: Field): seq<byte>
    requires FitsField(f)
    decreases f
  {
    Written(f.val, f.tag)
  }

  function WrittenFields(fs: seq<Field>): seq<byte>
    requires FitFields(fs)
    decreases fs
  {
    if fs == [] then [] else WrittenField(fs[0]) + WrittenFields(fs[1..])
  }

  lemma {:induction false} ReversedDigits(n: nat, k: nat)
    ensures Reverse(Little(n, k)) == Digits(n, k)
    decreases k
  {
    if k > 0 {
      ReversedDigits(n / 256, k - 1);
      assert Little(n, k)[1..] == Little(n / 256, k - 1);
    }
  }

  lemma WireDigits(n: nat, k: nat)
    requires k in {0, 1, 2, 4, 8}
    ensures Wire(n, k) == Digits(n, k)
  {
    hide Reverse;
    ReversedDigits(n, k);
    if k == 8 {
      HtonllReverses(Little(n, 8));
    } else if k == 1 {
      assert Digits(n, 1) == [] + [n % 256] == Little(n, 1);
    }
  }

  lemma IntDigits(n: int)
    requires FitsSigned(n, 8) && n != 0
    ensures IntBody(n) == Digits(Unsigned(n, IntWidth(n)), IntWidth(n))
    ensures FitsSigned(n, IntWidth(n))
  {
    WidthIsLeast(n, 8);
    LowBytes(n, IntWidth(n));
    WireDigits(Unsigned(n, IntWidth(n)), IntWidth(n));
  }

  lemma NumberWritten(n: int)
    requires FitsSigned(n, 8)
    ensures IntBody(n) == WrittenNumber(n)
  {
    hide Digits, Wire;
    Powers();
    if n == 0 {
      WireDigits(0, 0);
    } else {
      IntDigits(n);
    }
  }

  lemma HeadAnnounced(v: Value, tag: byte)
    ensures Head(KindOf(v), tag) == Announced(TypeNumber(v), tag)
  {
  }

  lemma IntWritten(n: int, tag: byte)
    requires FitsSigned(n, 8)
    ensures EncInt(n, tag) == WrittenInt(n, tag)
  {
    hide Head, Announced, TypeNumber, IntBody, WrittenNumber;
    HeadAnnounced(IntV(n), tag);
    NumberWritten(n);
  }

  /** Every value is written as it says above. */
  lemma {:induction false} WireFormat(v: Value, tag: byte)
    requires Fits(v)
    ensures Enc(v, tag) == Written(v, tag)
    decreases v, 1
  {
    hide Head, Announced, TypeNumber, KindOf, Body, WrittenRest;
    HeadAnnounced(v, tag);
    RestFormat(v);
  }

  lemma {:induction false} RestFormat(v: Value)
    requires Fits(v)
    ensures Body(v) == WrittenRest(v)
    decreases v, 0
  {
    hide Enc, Written, Digits, Wire, WrittenInt, EncInt, IntBody, WrittenNumber;
    Powers();
    match v
    case IntV(n) => NumberWritten(n);
    case FloatV(bits) => WireDigits(bits, 4);
    case DoubleV(bits) => WireDigits(bits, 8);
    case StringV(s) => WireDigits(|s|, 4);
    case BytesV(b) => IntWritten(|b|, 0);
    case ListV(items) =>
      IntWritten(|items|, 0);
      ItemsFormat(items);
    case MapV(entries) =>
      IntWritten(|entries|, 0);
      EntriesFormat(entries);
    case StructV(fields) => FieldsFormat(fields);
  }

  lemma {:induction false} ItemsFormat(items: seq<Value>)
    requires FitItems(items)
    ensures EncItems(items) == WrittenItems(items)
    decreases items
  {
    hide Enc, Written;
    if items != [] {
      WireFormat(items[0], 0);
      ItemsFormat(items[1..]);
    }
  }

  lemma {:induction false} EntryFormat(e: Entry)
    requires FitsEntry(e)
    ensures EncEntry(e) == WrittenEntry(e)
    decreases e
  {
    hide Enc, Written;
    WireFormat(e.key, 0);
    WireFormat(e.val, 1);
  }

  lemma {:induction false} EntriesFormat(es: seq<Entry>)
    requires FitEntries(es)
    ensures EncEntries(es) == WrittenEntries(es)
    decreases es
  {
    hide EncEntry, WrittenEntry;
    if es != [] {
      EntryFormat(es[0]);
      EntriesFormat(es[1..]);
    }
  }

  lemma {:induction false} FieldFormat(f: Field)
    requires FitsField(f)
    ensures EncField(f) == WrittenField(f)
    decreases f
  {
    hide Enc, Written;
    WireFormat(f.val, f.tag);
  }

  lemma {:induction false} FieldsFormat(fs: seq<Field>)
    requires FitFields(fs)
    ensures EncFields(fs) == WrittenFields(fs)
    decreases fs
  {
    hide EncField, WrittenField;
    if fs != [] {
      FieldFormat(fs[0]);
      FieldsFormat(fs[1..]);
    }
  }

  /** A string, a vector of bytes and a small number. */
  lemma StringWritten(s: seq<byte>, tag: byte)
    requires |s| <= 0x640_0000
    ensures Enc(StringV(s), tag) ==
            (if |s| < 256 then Announced(6, tag) + [|s|] else Announced(7, tag) + Digits(|s|, 4)) + s
  {
    hide Enc, Announced, Digits;
    WireFormat(StringV(s), tag);
    if |s| < 256 {
      Regroup(Announced(6, tag), [|s|], s);
    } else {
      Regroup(Announced(7, tag), Digits(|s|, 4), s);
    }
  }

  lemma Regroup(a: seq<byte>, b: seq<byte>, c: seq<byte>)
    ensures a + (b + c) == a + b + c
  {
  }

  lemma BytesWritten(b: seq<byte>, tag: byte)
    requires |b| < 0x8000_0000
    ensures FitsSigned(|b|, 8) && Enc(BytesV(b), tag) == Announced(13, tag) + ([0] + WrittenInt(|b|, 0) + b)
  {
    hide Enc, Announced, WrittenInt;
    Powers();
    WireFormat(BytesV(b), tag);
  }

  lemma SmallWritten(n: nat)
    requires n < 0x80
    ensures FitsSigned(n, 8) && WrittenInt(n, 0) == Enc(IntV(n), 0) == if n == 0 then [0x0C] else [0x00, n]
  {
    hide Enc;
    Powers();
    WireFormat(IntV(n), 0);
    assert Digits(n, 1) == [] + [n];
  }

  /** The first byte of a value has its type's number in the low four bits and the tag in the high four, where
      fifteen means that the tag is the second byte. */
  lemma FirstByte(v: Value, tag: byte)
    ensures var s, k := Enc(v, tag), TypeNumber(v);
            && (tag < 15 ==> s[0] == 16 * tag + k)
            && (tag >= 15 ==> |s| >= 2 && s[0] == 240 + k && s[1] == tag)
  {
    hide Body;
    HeadAnnounced(v, tag);
  }

  /** The writeBuf calls of a head. */
  function HeadCalls(k: nat, tag: byte): seq<seq<byte>>
    requires k < 16
  {
    if tag < 15 then [[16 * tag + k]] else [[240 + k], [tag]]
  }

  /** A string is a head of type 6, its length in one byte and its bytes; from 256 bytes on a head of type 7 and
      its length in four; and one of more than 100 megabytes is refused without a byte. */
  lemma StringCalls(s: seq<byte>, tag: byte)
    requires |s| < 0x1_0000_0000
    ensures |s| < 256 ==> EmitString(s, tag) == Trace(HeadCalls(6, tag) + [[|s|], s], true)
    ensures 256 <= |s| <= 0x640_0000 ==> EmitString(s, tag) == Trace(HeadCalls(7, tag) + [Digits(|s|, 4), s], true)
    ensures |s| > 0x640_0000 ==> EmitString(s, tag) == Trace([], false)
  {
    hide Wire, Digits, EmitHead, HeadCalls;
    WireDigits(|s|, 4);
    HeadsCalled(6, tag);
    HeadsCalled(7, tag);
  }

  lemma HeadsCalled(kind: Kind, tag: byte)
    ensures EmitHead(kind, tag) == Trace(HeadCalls(kind, tag), true)
  {
  }

  /** A number is a head and, if it is not zero, its bytes; floating point numbers are a head and their bits. */
  lemma NumberCalls(n: int, bits: nat, tag: byte)
    requires FitsSigned(n, 8)
    ensures EmitInt(n, tag) ==
            Trace(HeadCalls(TypeNumber(IntV(n)), tag) + if n == 0 then [] else [WrittenNumber(n)], true)
    ensures Emit(FloatV(bits), tag) == Trace(HeadCalls(4, tag) + [Digits(bits, 4)], true)
    ensures Emit(DoubleV(bits), tag) == Trace(HeadCalls(5, tag) + [Digits(bits, 8)], true)
  {
    hide Wire, Digits, EmitHead, HeadCalls, IntBody, WrittenNumber;
    WireDigits(bits, 4);
    WireDigits(bits, 8);
    HeadsCalled(4, tag);
    HeadsCalled(5, tag);
    HeadsCalled(IntKind(IntWidth(n)), tag);
    NumberWritten(n);
    assert HeadCalls(12, tag) + [] == HeadCalls(12, tag);
  }

  /** A vector of bytes is its head, the head of a Char, the count, and the bytes in one call. */
  lemma BytesCalls(b: seq<byte>, tag: byte)
    requires |b| < 0x8000_0000
    ensures Emit(BytesV(b), tag) == Trace(HeadCalls(13, tag) + [[0]] + EmitInt(|b|, 0).writes + [b], true)
    ensures EmitInt(|b|, 0).ok
  {
    hide EmitHead, HeadCalls;
    HeadsCalled(13, tag);
    CharHead();
    IntEmits(|b|);
  }

  lemma CharHead()
    ensures EmitHead(CHAR, 0) == Trace([[0]], true)
  {
  }

  lemma IntEmits(n: nat)
    ensures EmitInt(n, 0).ok
  {
  }

  // What any bytes are read as.

  /** The bytes at the cursor are the head that is peeked; there is none exactly at the end of the buffer, or
      if the second byte of two is missing. */
  lemma PeekedIsThere(buf: seq<byte>, cur: nat)
    ensures var p := PeekHead(buf, cur);
            && (p.None? <==> cur >= |buf| || (buf[cur] >= 240 && cur + 1 >= |buf|))
            && (p.Some? ==>
                  var (h, n) := p.value;
                  if buf[cur] < 240 then n == 1 && buf[cur] == 16 * h.tag + h.kind
                  else n == 2 && buf[cur] == 240 + h.kind && buf[cur + 1] == h.tag)
  {
  }

  /** What skipField(type) makes of each type's number. */
  lemma SkipMeans(buf: seq<byte>, cur: nat, kind: Kind)
    ensures kind == 0 ==> SkipBody(buf, cur, kind) == Done((), cur + 1, 0)
    ensures kind == 1 ==> SkipBody(buf, cur, kind) == Done((), cur + 2, 0)
    ensures kind == 2 || kind == 4 ==> SkipBody(buf, cur, kind) == Done((), cur + 4, 0)
    ensures kind == 3 || kind == 5 ==> SkipBody(buf, cur, kind) == Done((), cur + 8, 0)
    ensures kind == 11 || kind == 12 ==> SkipBody(buf, cur, kind) == Done((), cur, 0)
    ensures kind == 6 ==> SkipBody(buf, cur, kind) ==
                          if cur >= |buf| then Raised(DecodeError, cur, 0) else Done((), cur + 1 + buf[cur], 0)
    ensures kind == 7 ==> SkipBody(buf, cur, kind) ==
                          if cur + 4 > |buf| then Raised(DecodeError, cur, 0)
                          else Done((), cur + 4 + FromBig(buf[cur..cur + 4]), 0)
    ensures kind == 14 || kind == 15 ==> SkipBody(buf, cur, kind) == Raised(Mismatch, cur, 0)
  {
    hide ReadInt, SkipCount;
    if cur < |buf| {
      OneByte(buf[cur..cur + 1]);
    }
    if cur + 4 <= |buf| {
      UnwireIsBig(buf[cur..cur + 4]);
    }
  }

  /** A simple list is skipped by the head of a Char, which must be one, a count, and as many bytes as the count
      says; a negative count stands for a large one. */
  lemma SimpleListSkips(buf: seq<byte>, cur: nat)
    ensures PeekHead(buf, cur).None? ==> SkipBody(buf, cur, 13) == Raised(DecodeError, cur, 1)
    ensures PeekHead(buf, cur).Some? && PeekHead(buf, cur).value.0.kind != 0 ==>
              SkipBody(buf, cur, 13) == Raised(Mismatch, cur + PeekHead(buf, cur).value.1, 1)
    ensures PeekHead(buf, cur).Some? && PeekHead(buf, cur).value.0.kind == 0 ==>
              var n, s := ReadInt(buf, cur + PeekHead(buf, cur).value.1, 4, 0), SkipBody(buf, cur, 13);
              && (n.Raised? ==> s == Raised(n.e, n.cur, 1 + n.peeks))
              && (n.Done? && n.v.None? ==> s == Raised(RequireNotExist, n.cur, 1 + n.peeks))
              && (n.Done? && n.v.Some? ==>
                    s == Done((), n.cur + if n.v.value < 0 then n.v.value + 0x1_0000_0000 else n.v.value, 1 + n.peeks))
  {
    hide ReadInt, PeekHead;
  }

  /** A list is skipped by a count and as many fields, a map by twice as many; without a count there is an
      exception, and a negative count means no field. */
  lemma ElementsSkip(buf: seq<byte>, cur: nat)
    ensures var n := ReadInt(buf, cur, 4, 0);
            && (n.Raised? ==> SkipBody(buf, cur, 9) == SkipBody(buf, cur, 8) == Raised(n.e, n.cur, n.peeks))
            && (n.Done? && n.v.None? ==>
                  SkipBody(buf, cur, 9) == SkipBody(buf, cur, 8) == Raised(RequireNotExist, n.cur, n.peeks))
            && (n.Done? && n.v.Some? && n.v.value < 0 ==>
                  SkipBody(buf, cur, 9) == Done((), n.cur, n.peeks))
            && (n.Done? && n.v.Some? && n.v.value >= 0 ==>
                  && SkipBody(buf, cur, 9) == SkipCount(buf, n.cur, n.v.value).After(n.peeks)
                  && (n.v.value < 0x4000_0000 ==>
                        SkipBody(buf, cur, 8) == SkipCount(buf, n.cur, 2 * n.v.value).After(n.peeks)))
  {
    hide ReadInt, SkipCount;
    NoneSkipped(buf, ReadInt(buf, cur, 4, 0).cur);
  }

  lemma NoneSkipped(buf: seq<byte>, cur: nat)
    ensures SkipCount(buf, cur, 0) == Done((), cur, 0)
  {
  }

  lemma OneByte(s: seq<byte>)
    requires |s| == 1
    ensures Unwire(s) == s[0] && FromBig(s) == s[0]
  {
    assert s[1..] == [] && s[..0] == [];
  }

  lemma UnwireIsBig(s: seq<byte>)
    requires |s| in {0, 1, 2, 4, 8}
    ensures Unwire(s) == FromBig(s)
  {
    hide Reverse;
    ReverseIsBig(Reverse(s));
    ReverseTwice(s);
    if |s| == 8 {
      HtonllReverses(s);
    } else if |s| == 1 {
      OneByte(s);
    }
  }

  /** The number in big-endian two's complement bytes. */
  function SignedBig(s: seq<byte>): int
    requires s != []
  {
    if s[0] < 128 then FromBig(s) else FromBig(s) - Pow256(|s|)
  }

  lemma {:induction false} BigBounds(s: seq<byte>)
    requires s != []
    ensures s[0] * Pow256(|s| - 1) <= FromBig(s) < (s[0] + 1) * Pow256(|s| - 1)
    decreases |s|
  {
    if |s| == 1 {
      OneByte(s);
    } else {
      BigBounds(s[..|s| - 1]);
      Shift(s[0], Pow256(|s| - 2), FromBig(s[..|s| - 1]), s[|s| - 1]);
    }
  }

  lemma Shift(a: nat, p: nat, m: nat, b: byte)
    requires a * p <= m < (a + 1) * p
    ensures a * (256 * p) <= 256 * m + b < (a + 1) * (256 * p)
  {
    assert a * (256 * p) == 256 * (a * p) && (a + 1) * (256 * p) == 256 * ((a + 1) * p);
  }

  lemma TopBitIsSign(s: seq<byte>)
    requires |s| in {1, 2, 4, 8}
    ensures Signed(Unwire(s), |s|) == SignedBig(s)
  {
    UnwireIsBig(s);
    BigBounds(s);
    var p := Pow256(|s| - 1);
    assert Pow256(|s|) == 256 * p;
    if s[0] < 128 {
      Below(s[0] + 1, 128, p);
    } else {
      Below(128, s[0], p);
    }
  }

  lemma Below(a: nat, b: nat, p: nat)
    requires a <= b
    ensures a * p <= b * p
  {
  }

  /** What the integer readers make of each type's number, at the width they read: a zero, a number of at most
      that width with its sign, or a mismatch. */
  lemma IntMeans(buf: seq<byte>, cur: nat, kind: Kind, width: nat)
    requires width in {1, 2, 4, 8}
    ensures kind == 12 ==> ReadIntBody(buf, cur, kind, width) == Done(0, cur, 0)
    ensures kind !in {0, 1, 2, 3, 12} ==> ReadIntBody(buf, cur, kind, width) == Raised(Mismatch, cur, 0)
    ensures kind in {0, 1, 2, 3} ==>
              var w := if kind == 0 then 1 else if kind == 1 then 2 else if kind == 2 then 4 else 8;
              ReadIntBody(buf, cur, kind, width) ==
              if w > width then Raised(Mismatch, cur, 0)
              else if cur + w > |buf| then Raised(DecodeError, cur, 0)
              else Done(SignedBig(buf[cur..cur + w]), cur + w, 0)
  {
    hide Unwire, Signed, SignedBig;
    var w := if kind == 0 then 1 else if kind == 1 then 2 else if kind == 2 then 4 else 8;
    if cur + w <= |buf| {
      TopBitIsSign(buf[cur..cur + w]);
    }
  }

  /** Which types' numbers a read accepts, by its static type; every other number is a mismatch. */
  function Accepted(ty: Ty): set<int>
  {
    match ty
    case BoolT | CharT => {0, 12}
    case UInt8T | ShortT => {0, 1, 12}
    case UInt16T | Int32T => {0, 1, 2, 12}
    case UInt32T | Int64T => {0, 1, 2, 3, 12}
    case FloatT => {4, 12}
    case DoubleT => {4, 5, 12}
    case StringT => {6, 7}
    case BytesT => {9, 13}
    case ListT(_) => {9}
    case MapT(_, _) => {8}
    case StructT(_) => {10}
  }

  lemma OthersMismatch(buf: seq<byte>, cur: nat, ty: Ty, kind: Kind)
    requires kind !in Accepted(ty)
    ensures ReadBody(buf, cur, ty, kind) == Bad(Mismatch)
  {
    hide ReadWord, ReadSize, ReadSlots, ReadItems, ReadEntries;
  }

  lemma ScalarBodies(buf: seq<byte>, cur: nat, kind: Kind)
    ensures ReadBody(buf, cur, FloatT, kind) == ReadFloat(buf, cur, kind)
    ensures ReadBody(buf, cur, DoubleT, kind) == ReadDouble(buf, cur, kind)
    ensures ReadBody(buf, cur, StringT, kind) == ReadString(buf, cur, kind)
  {
    hide ReadFloat, ReadDouble, ReadString;
  }

  /** A bit pattern is big-endian; a Float may be read as a Double. */
  lemma FloatMeans(buf: seq<byte>, cur: nat)
    ensures ReadBody(buf, cur, FloatT, 12) == Got(FloatV(0), cur)
    ensures ReadBody(buf, cur, DoubleT, 12) == Got(DoubleV(0), cur)
    ensures ReadBody(buf, cur, FloatT, 4) == ReadBody(buf, cur, DoubleT, 4) ==
            if cur + 4 > |buf| then Bad(DecodeError) else Got(FloatV(FromBig(buf[cur..cur + 4])), cur + 4)
    ensures ReadBody(buf, cur, DoubleT, 5) ==
            if cur + 8 > |buf| then Bad(DecodeError) else Got(DoubleV(FromBig(buf[cur..cur + 8])), cur + 8)
  {
    hide Unwire, FromBig, ReadBody;
    ScalarBodies(buf, cur, 4);
    ScalarBodies(buf, cur, 5);
    ScalarBodies(buf, cur, 12);
    if cur + 4 <= |buf| {
      UnwireIsBig(buf[cur..cur + 4]);
    }
    if cur + 8 <= |buf| {
      UnwireIsBig(buf[cur..cur + 8]);
    }
  }

  /** The bytes of a string after its length, if the buffer has them. */
  function Chars(buf: seq<byte>, cur: nat, n: nat): Got<Value>
  {
    if cur + n > |buf| then Bad(DecodeError) else Got(StringV(buf[cur..cur + n]), cur + n)
  }

  /** A short string has its length in one byte, a long one in four; more than 100 megabytes is refused. */
  lemma StringMeans(buf: seq<byte>, cur: nat)
    ensures ReadBody(buf, cur, StringT, 6) ==
            if cur >= |buf| then Bad(DecodeError) else Chars(buf, cur + 1, buf[cur])
    ensures cur + 4 > |buf| ==> ReadBody(buf, cur, StringT, 7) == Bad(DecodeError)
    ensures cur + 4 <= |buf| ==>
              var n := FromBig(buf[cur..cur + 4]);
              ReadBody(buf, cur, StringT, 7) == if n > 0x640_0000 then Bad(InvalidValue) else Chars(buf, cur + 4, n)
  {
    hide Unwire, FromBig, ReadBody;
    ScalarBodies(buf, cur, 6);
    ScalarBodies(buf, cur, 7);
    if cur < |buf| {
      OneByte(buf[cur..cur + 1]);
    }
    if cur + 4 <= |buf| {
      UnwireIsBig(buf[cur..cur + 4]);
    }
  }

  /** A value that must be there and is not is an exception of its own; so is a count. */
  lemma AbsentMeans(buf: seq<byte>, cur: nat, ty: Ty, tag: byte)
    ensures Read(buf, cur, ty, tag).Got? && Read(buf, cur, ty, tag).v.None? ==>
              ReadRequired(buf, cur, ty, tag) == Bad(RequireNotExist)
    ensures ReadInt(buf, cur, 8, 0).Done? && ReadInt(buf, cur, 8, 0).v.None? ==>
              ReadSize(buf, cur) == Bad(RequireNotExist)
  {
    hide Read, ReadInt;
  }

  /** A vector of bytes from a simple list: the head of a Char, a count no larger than the buffer, the bytes. */
  lemma SimpleListMeans(buf: seq<byte>, cur: nat)
    ensures PeekHead(buf, cur).None? ==> ReadBody(buf, cur, BytesT, 13) == Bad(DecodeError)
    ensures PeekHead(buf, cur).Some? && PeekHead(buf, cur).value.0.kind != 0 ==>
              ReadBody(buf, cur, BytesT, 13) == Bad(Mismatch)
    ensures PeekHead(buf, cur).Some? && PeekHead(buf, cur).value.0.kind == 0 ==>
              var n, v := ReadSize(buf, cur + PeekHead(buf, cur).value.1), ReadBody(buf, cur, BytesT, 13);
              && (n.Bad? ==> v == Bad(n.e))
              && (n.Got? && n.v > |buf| ==> v == Bad(InvalidValue))
              && (n.Got? && n.v <= |buf| ==>
                    v == if n.cur + n.v > |buf| then Bad(DecodeError)
                         else Got(BytesV(buf[n.cur..n.cur + n.v]), n.cur + n.v))
  {
    hide ReadSize, PeekHead, ReadCharItems;
  }

  /** From a list of Chars: a count no larger than the buffer, then that many Chars. */
  lemma CharListMeans(buf: seq<byte>, cur: nat)
    ensures var n := ReadSize(buf, cur);
            ReadBody(buf, cur, BytesT, 9) ==
            if n.Bad? then Bad(n.e) else if n.v > |buf| then Bad(InvalidValue) else ReadCharItems(buf, n.cur, n.v, [])
  {
    hide ReadSize, ReadCharItems;
  }

  /** What a number becomes at each integer type: the number itself if the signed type it is read through holds
      it, reduced to the unsigned type, or to a truth value. */
  lemma IntegerTable(n: int)
    ensures Project(BoolT, IntV(n)) ==
            if -0x80 <= n < 0x80 then Success(IntV(if n == 0 then 0 else 1)) else Failure(Mismatch)
    ensures Project(CharT, IntV(n)) == if -0x80 <= n < 0x80 then Success(IntV(n)) else Failure(Mismatch)
    ensures Project(UInt8T, IntV(n)) == if -0x8000 <= n < 0x8000 then Success(IntV(n % 0x100)) else Failure(Mismatch)
    ensures Project(ShortT, IntV(n)) == if -0x8000 <= n < 0x8000 then Success(IntV(n)) else Failure(Mismatch)
    ensures Project(UInt16T, IntV(n)) ==
            if -0x8000_0000 <= n < 0x8000_0000 then Success(IntV(n % 0x1_0000)) else Failure(Mismatch)
    ensures Project(Int32T, IntV(n)) == if -0x8000_0000 <= n < 0x8000_0000 then Success(IntV(n)) else Failure(Mismatch)
    ensures FitsSigned(n, 8) ==> Project(UInt32T, IntV(n)) == Success(IntV(n % 0x1_0000_0000))
    ensures FitsSigned(n, 8) ==> Project(Int64T, IntV(n)) == Success(IntV(n))
  {
    Powers();
  }
}
