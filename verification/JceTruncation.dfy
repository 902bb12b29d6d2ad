/** What becomes of a buffer cut short: exactly when decoding it throws. */
module JceTruncation {
  import opened Wrappers
  import opened Bytes
  import opened JceValue
  import opened JceReader
  import opened JceSchema
  import opened JceLookup
  import opened JceIntegers
  import opened JceSkipping
  import opened JceDecoding
  import opened JceRecords

  // A cursor with no whole head ahead: the end of the buffer, or half of a two-byte head.

  predicate Stuck(buf: seq<byte>, cur: nat)
  {
    PeekHead(buf, cur) == None
  }

  lemma CutHeadIsStuck(buf: seq<byte>, cur: nat, kind: Kind, tag: byte)
    requires Cut(buf, cur, Head(kind, tag))
    ensures Stuck(buf, cur)
  {
    if cur < |buf| {
      assert buf[cur] == buf[cur..][0] == Head(kind, tag)[0];
    }
  }

  lemma StuckReads(buf: seq<byte>, cur: nat, ty: Ty, tag: byte)
    requires Stuck(buf, cur)
    ensures SkipToTag(buf, cur, tag).cur == cur && !SkipToTag(buf, cur, tag).found
    ensures Read(buf, cur, ty, tag) == Got(None, cur)
    ensures ReadRequired(buf, cur, ty, tag) == Bad(RequireNotExist)
    ensures ReadHead(buf, cur).Raised? && SkipToStructEnd(buf, cur).Raised?
  {
    hide PeekHead, SkipBody, ReadBody;
  }

  lemma CutIntBody(buf: seq<byte>, cur: nat, n: int, width: nat)
    requires width in {1, 2, 4, 8} && Cut(buf, cur, IntBody(n))
    ensures ReadIntBody(buf, cur, IntKind(IntWidth(n)), width).Raised?
  {
  }

  lemma CutSize(buf: seq<byte>, cur: nat, n: int)
    requires Cut(buf, cur, EncInt(n, 0))
    ensures ReadSize(buf, cur).Bad?
  {
    hide PeekHead, IntBody, ReadIntBody, SkipBody, Pow256, Head, SkipToTag;
    var kind := IntKind(IntWidth(n));
    CutSplit(buf, cur, Head(kind, 0), IntBody(n));
    if Cut(buf, cur, Head(kind, 0)) {
      CutHeadIsStuck(buf, cur, kind, 0);
      StuckReads(buf, cur, Int64T, 0);
    } else {
      SeekHere(buf, cur, kind, 0);
      CutIntBody(buf, cur + |Head(kind, 0)|, n, 8);
    }
  }

  /** A conforming value cut short is either not begun, or the read throws. */
  lemma {:induction false} CutRead(buf: seq<byte>, cur: nat, ty: Ty, v: Value, tag: byte)
    requires Fits(v) && Ordered(v) && OrderedTy(ty) && Conforms(ty, v)
    requires Cut(buf, cur, Enc(v, tag))
    ensures if |buf| - cur < |Head(KindOf(v), tag)| then Stuck(buf, cur) && Read(buf, cur, ty, tag) == Got(None, cur)
            else Read(buf, cur, ty, tag).Bad?
    decreases ty, 2, 0
  {
    hide PeekHead, Body, ReadBody, Head, KindOf, Fits, Ordered, OrderedTy, Conforms, SkipToTag;
    KindTells(v);
    CutSplit(buf, cur, Head(KindOf(v), tag), Body(v));
    if Cut(buf, cur, Head(KindOf(v), tag)) {
      CutHeadIsStuck(buf, cur, KindOf(v), tag);
      StuckReads(buf, cur, ty, tag);
    } else {
      SeekHere(buf, cur, KindOf(v), tag);
      CutBody(buf, cur + |Head(KindOf(v), tag)|, ty, v);
    }
  }

  lemma {:induction false} CutRequired(buf: seq<byte>, cur: nat, ty: Ty, v: Value, tag: byte)
    requires Fits(v) && Ordered(v) && OrderedTy(ty) && Conforms(ty, v)
    requires Cut(buf, cur, Enc(v, tag))
    ensures ReadRequired(buf, cur, ty, tag).Bad?
    decreases ty, 3, 0
  {
    hide PeekHead, Enc, Read, Head, Fits, Ordered, OrderedTy, Conforms;
    CutRead(buf, cur, ty, v, tag);
  }

  lemma {:induction false} CutBody(buf: seq<byte>, cur: nat, ty: Ty, v: Value)
    requires Fits(v) && Ordered(v) && OrderedTy(ty) && Conforms(ty, v)
    requires Cut(buf, cur, Body(v))
    ensures ReadBody(buf, cur, ty, KindOf(v)).Bad?
    decreases ty, 1, 0
  {
    hide ReadBody, Body, Fits, Ordered, KindOf, InRange;
    match ty
    case FloatT => CutWord(buf, cur, ty, v);
    case DoubleT => CutWord(buf, cur, ty, v);
    case StringT => CutString(buf, cur, v);
    case BytesT => CutBytes(buf, cur, v);
    case ListT(elem) => CutList(buf, cur, elem, v);
    case MapT(key, val) => CutMap(buf, cur, key, val, v);
    case StructT(slots) => CutStruct(buf, cur, slots, v);
    case _ => CutInteger(buf, cur, ty, v);
  }

  lemma CutInteger(buf: seq<byte>, cur: nat, ty: Ty, v: Value)
    requires v.IntV? && ReadWidth(ty) != 0 && Cut(buf, cur, Body(v))
    ensures ReadBody(buf, cur, ty, KindOf(v)).Bad?
  {
    hide IntBody, ReadIntBody, Cast;
    CutIntBody(buf, cur, v.n, ReadWidth(ty));
  }

  lemma CutWord(buf: seq<byte>, cur: nat, ty: Ty, v: Value)
    requires (ty == FloatT && v.FloatV?) || (ty == DoubleT && v.DoubleV?)
    requires Fits(v) && Cut(buf, cur, Body(v))
    ensures ReadBody(buf, cur, ty, KindOf(v)).Bad?
  {
    hide Wire, Unwire, Pow256;
  }

  lemma CutString(buf: seq<byte>, cur: nat, v: Value)
    requires v.StringV? && Fits(v) && Cut(buf, cur, Body(v))
    ensures ReadBody(buf, cur, StringT, KindOf(v)).Bad?
  {
    hide Wire, Unwire, Pow256;
    var s := v.s;
    var lengthBytes := if |s| > 255 then Wire(|s|, 4) else [|s|];
    CutSplit(buf, cur, lengthBytes, s);
    if At(buf, cur, lengthBytes) {
      Powers();
      if |s| > 255 {
        WireRoundTrip(|s|, 4);
      } else {
        ByteReads(|s|);
      }
    }
  }

  lemma CutBytes(buf: seq<byte>, cur: nat, v: Value)
    requires v.BytesV? && Fits(v) && Cut(buf, cur, Body(v))
    ensures ReadBody(buf, cur, BytesT, KindOf(v)).Bad?
  {
    hide PeekHead, EncInt, ReadSize, Head;
    var b, h, n := v.b, Head(CHAR, 0), EncInt(|v.b|, 0);
    assert Body(v) == h + n + b;
    CutSplit(buf, cur, h + n, b);
    if At(buf, cur, h + n) {
      AtSplit(buf, cur, h, n);
      HeadPeek(buf, cur, CHAR, 0);
      SizeBack(buf, cur + |h|, |b|);
    } else {
      CutSplit(buf, cur, h, n);
      if At(buf, cur, h) {
        HeadPeek(buf, cur, CHAR, 0);
        CutSize(buf, cur + |h|, |b|);
      } else {
        CutHeadIsStuck(buf, cur, CHAR, 0);
      }
    }
  }

  lemma {:induction false} CutList(buf: seq<byte>, cur: nat, elem: Ty, v: Value)
    requires v.ListV? && Fits(v) && Ordered(v) && OrderedTy(elem) && ConformItems(elem, v.items)
    requires Cut(buf, cur, Body(v))
    ensures ReadBody(buf, cur, ListT(elem), KindOf(v)).Bad?
    decreases elem, 5, 0
  {
    hide ReadSize, ReadItems, EncInt, EncItems, Ordered, OrderedTy, ConformItems;
    var n := EncInt(|v.items|, 0);
    FitsList(v);
    CutSplit(buf, cur, n, EncItems(v.items));
    if At(buf, cur, n) {
      SizeBack(buf, cur, |v.items|);
      CutItems(buf, cur + |n|, elem, v.items, []);
    } else {
      CutSize(buf, cur, |v.items|);
    }
  }

  lemma {:induction false} CutItems(buf: seq<byte>, cur: nat, elem: Ty, items: seq<Value>, acc: seq<Value>)
    requires FitItems(items) && OrderedItems(items) && OrderedTy(elem) && ConformItems(elem, items)
    requires Cut(buf, cur, EncItems(items))
    ensures ReadItems(buf, cur, elem, |items|, acc).Bad?
    decreases elem, 4, |items|
  {
    hide ReadRequired, Enc, Fits, Ordered, OrderedTy, Conforms;
    assert items != [];
    CutSplit(buf, cur, Enc(items[0], 0), EncItems(items[1..]));
    if At(buf, cur, Enc(items[0], 0)) {
      RoundTrip(buf, cur, elem, items[0], 0);
      CutItems(buf, cur + |Enc(items[0], 0)|, elem, items[1..], acc + [items[0]]);
    } else {
      CutRequired(buf, cur, elem, items[0], 0);
    }
  }

  lemma {:induction false} CutMap(buf: seq<byte>, cur: nat, key: Ty, val: Ty, v: Value)
    requires v.MapV? && Fits(v) && Ordered(v) && OrderedTy(key) && OrderedTy(val) && ConformEntries(key, val, v.entries)
    requires Cut(buf, cur, Body(v))
    ensures ReadBody(buf, cur, MapT(key, val), KindOf(v)).Bad?
    decreases MapT(key, val), 0, 1 + |if v.MapV? then v.entries else []|
  {
    hide ReadSize, ReadEntries, EncInt, EncEntries, Ordered, OrderedTy, ConformEntries;
    var n := EncInt(|v.entries|, 0);
    FitsMap(v);
    CutSplit(buf, cur, n, EncEntries(v.entries));
    if At(buf, cur, n) {
      SizeBack(buf, cur, |v.entries|);
      CutEntries(buf, cur + |n|, key, val, v.entries, []);
    } else {
      CutSize(buf, cur, |v.entries|);
    }
  }

  lemma {:induction false} CutEntries(buf: seq<byte>, cur: nat, key: Ty, val: Ty, es: seq<Entry>, acc: seq<Entry>)
    requires FitEntries(es) && OrderedEntries(es) && OrderedTy(key) && OrderedTy(val) && ConformEntries(key, val, es)
    requires Cut(buf, cur, EncEntries(es))
    ensures ReadEntries(buf, cur, key, val, |es|, acc).Bad?
    decreases MapT(key, val), 0, |es|
  {
    hide ReadRequired, Enc, Fits, Ordered, OrderedTy, Conforms, Insert, ReadEntries, EncEntry, FitsEntry, OrderedEntry;
    assert es != [];
    var e := es[0];
    ReadEntriesStep(buf, cur, key, val, |es|, acc);
    CutSplit(buf, cur, EncEntry(e), EncEntries(es[1..]));
    if At(buf, cur, EncEntry(e)) {
      EntryRoundTrip(buf, cur, key, val, e);
      CutEntries(buf, cur + |EncEntry(e)|, key, val, es[1..], Insert(acc, Entry(e.key, e.val)));
    } else {
      CutEntry(buf, cur, key, val, e);
    }
  }

  lemma EntryRoundTrip(buf: seq<byte>, cur: nat, key: Ty, val: Ty, e: Entry)
    requires FitsEntry(e) && OrderedEntry(e) && OrderedTy(key) && OrderedTy(val)
    requires Conforms(key, e.key) && Conforms(val, e.val) && At(buf, cur, EncEntry(e))
    ensures var k := ReadRequired(buf, cur, key, 0);
            k.Got? && k.v == e.key && ReadRequired(buf, k.cur, val, 1) == Got(e.val, cur + |EncEntry(e)|)
  {
    hide ReadRequired, Enc, Fits, Ordered, OrderedTy, Conforms;
    AtSplit(buf, cur, Enc(e.key, 0), Enc(e.val, 1));
    RoundTrip(buf, cur, key, e.key, 0);
    RoundTrip(buf, cur + |Enc(e.key, 0)|, val, e.val, 1);
  }

  lemma {:induction false} CutEntry(buf: seq<byte>, cur: nat, key: Ty, val: Ty, e: Entry)
    requires FitsEntry(e) && OrderedEntry(e) && OrderedTy(key) && OrderedTy(val)
    requires Conforms(key, e.key) && Conforms(val, e.val) && Cut(buf, cur, EncEntry(e))
    ensures var k := ReadRequired(buf, cur, key, 0);
            k.Got? ==> ReadRequired(buf, k.cur, val, 1).Bad?
    decreases MapT(key, val), 0, 0
  {
    hide ReadRequired, Enc, Fits, Ordered, OrderedTy, Conforms;
    CutSplit(buf, cur, Enc(e.key, 0), Enc(e.val, 1));
    if At(buf, cur, Enc(e.key, 0)) {
      RoundTrip(buf, cur, key, e.key, 0);
      CutRequired(buf, cur + |Enc(e.key, 0)|, val, e.val, 1);
    } else {
      CutRequired(buf, cur, key, e.key, 0);
    }
  }

  // Records.

  predicate AllOptional(slots: seq<Slot>)
  {
    forall i :: 0 <= i < |slots| ==> !slots[i].required
  }

  /** Where no head can be read, every optional field is absent and every required one throws. */
  lemma {:induction false} StuckSlots(buf: seq<byte>, cur: nat, slots: seq<Slot>)
    requires Stuck(buf, cur)
    ensures if AllOptional(slots) then ReadSlots(buf, cur, slots) == Got(Defaults(slots), cur)
            else ReadSlots(buf, cur, slots) == Bad(RequireNotExist)
    decreases |slots|
  {
    hide Read, PeekHead;
    if slots != [] {
      StuckReads(buf, cur, slots[0].ty, slots[0].tag);
      StuckSlots(buf, cur, slots[1..]);
    }
  }

  /** The first field of a conforming record, whole in the buffer. */
  lemma SlotRoundTrip(buf: seq<byte>, cur: nat, slot: Slot, f: Field)
    requires FitsField(f) && OrderedField(f) && OrderedSlot(slot) && ConformField(slot, f)
    requires At(buf, cur, EncField(f))
    ensures ReadSlot(buf, cur, slot) == Got(f, cur + |EncField(f)|)
  {
    hide Read, Enc, Fits, Ordered, OrderedTy, Conforms;
    RoundTrip(buf, cur, slot.ty, f.val, slot.tag);
  }

  lemma {:induction false} CutSlot(buf: seq<byte>, cur: nat, slot: Slot, f: Field)
    requires FitsField(f) && OrderedField(f) && OrderedSlot(slot) && ConformField(slot, f)
    requires Cut(buf, cur, EncField(f))
    ensures if |buf| - cur < |Head(KindOf(f.val), f.tag)| then Stuck(buf, cur) else ReadSlot(buf, cur, slot).Bad?
    decreases slot, 0, 0
  {
    hide Read, Enc, Fits, Ordered, OrderedTy, Conforms, PeekHead, Head;
    CutRead(buf, cur, slot.ty, f.val, slot.tag);
  }

  /** Inside a struct the StructEnd is still to come, so a cut always throws. */
  lemma {:induction false} CutInside(buf: seq<byte>, cur: nat, slots: seq<Slot>, fs: seq<Field>)
    requires FitFields(fs) && OrderedFields(fs) && OrderedSlots(slots) && ConformFields(slots, fs)
    requires Cut(buf, cur, EncFields(fs) + Head(STRUCT_END, 0))
    ensures var g := ReadSlots(buf, cur, slots);
            g.Got? ==> SkipToStructEnd(buf, g.cur).Raised?
    decreases slots, 1, 0
  {
    hide ReadSlot, EncField, FitsField, OrderedField, OrderedSlot, ConformField, PeekHead, SkipToStructEnd, Head;
    var last := Head(STRUCT_END, 0);
    if fs == [] {
      assert EncFields(fs) + last == last;
      CutHeadIsStuck(buf, cur, STRUCT_END, 0);
      StuckReads(buf, cur, BoolT, 0);
    } else {
      assert EncFields(fs) + last == EncField(fs[0]) + (EncFields(fs[1..]) + last);
      CutSplit(buf, cur, EncField(fs[0]), EncFields(fs[1..]) + last);
      if At(buf, cur, EncField(fs[0])) {
        SlotRoundTrip(buf, cur, slots[0], fs[0]);
        CutInside(buf, cur + |EncField(fs[0])|, slots[1..], fs[1..]);
      } else {
        CutSlot(buf, cur, slots[0], fs[0]);
        if Stuck(buf, cur) {
          StuckSlots(buf, cur, slots);
          StuckReads(buf, cur, BoolT, 0);
        }
      }
    }
  }

  lemma {:induction false} CutStruct(buf: seq<byte>, cur: nat, slots: seq<Slot>, v: Value)
    requires v.StructV? && Fits(v) && Ordered(v) && OrderedSlots(slots) && ConformFields(slots, v.fields)
    requires Cut(buf, cur, Body(v))
    ensures ReadBody(buf, cur, StructT(slots), KindOf(v)).Bad?
    decreases slots, 2, 0
  {
    hide ReadSlots, EncFields, FitFields, OrderedFields, OrderedSlots, ConformFields, SkipToStructEnd, Head;
    CutInside(buf, cur, slots, v.fields);
  }

  /** How many of the fields lie whole in the first k bytes, and how many bytes of the next one. */
  function Whole(fs: seq<Field>, k: nat): (n: nat)
    ensures n <= |fs|
    decreases |fs|
  {
    if fs == [] || k < |EncField(fs[0])| then 0 else 1 + Whole(fs[1..], k - |EncField(fs[0])|)
  }

  function Over(fs: seq<Field>, k: nat): nat
    decreases |fs|
  {
    if fs == [] || k < |EncField(fs[0])| then k else Over(fs[1..], k - |EncField(fs[0])|)
  }

  /** The cut falls on a field boundary, or after one byte of a two-byte head (a tag from 15 on). */
  predicate CleanCut(fs: seq<Field>, k: nat)
  {
    Over(fs, k) == 0 || (Over(fs, k) == 1 && Whole(fs, k) < |fs| && fs[Whole(fs, k)].tag >= 15)
  }

  lemma {:induction false} CutRecord(buf: seq<byte>, cur: nat, slots: seq<Slot>, fs: seq<Field>)
    requires FitFields(fs) && OrderedFields(fs) && OrderedSlots(slots) && ConformFields(slots, fs) && AllOptional(slots)
    requires cur <= |buf| <= cur + |EncFields(fs)| && buf[cur..] == EncFields(fs)[..|buf| - cur]
    ensures var k := |buf| - cur;
            var g := ReadSlots(buf, cur, slots);
            if CleanCut(fs, k) then g.Got? && g.v == fs[..Whole(fs, k)] + Defaults(slots[Whole(fs, k)..])
            else g.Bad?
    decreases |slots|
  {
    hide ReadSlot, EncField, FitsField, OrderedField, OrderedSlot, ConformField, PeekHead, Head;
    if fs == [] {
    } else if |buf| == cur + |EncFields(fs)| || |buf| - cur >= |EncField(fs[0])| {
      FirstIsWhole(buf, cur, fs);
      SlotRoundTrip(buf, cur, slots[0], fs[0]);
      CutRecord(buf, cur + |EncField(fs[0])|, slots[1..], fs[1..]);
      WholeStep(slots, fs, |buf| - cur);
    } else {
      CutFirst(buf, cur, slots, fs);
    }
  }

  lemma FirstIsWhole(buf: seq<byte>, cur: nat, fs: seq<Field>)
    requires fs != [] && cur + |EncField(fs[0])| <= |buf| <= cur + |EncFields(fs)|
    requires buf[cur..] == EncFields(fs)[..|buf| - cur]
    ensures At(buf, cur, EncField(fs[0]))
    ensures var next := cur + |EncField(fs[0])|; buf[next..] == EncFields(fs[1..])[..|buf| - next]
  {
    hide EncField;
    PrefixStep(buf, cur, EncField(fs[0]), EncFields(fs[1..]));
  }

  /** A buffer that holds a and a prefix of b. */
  lemma PrefixStep(buf: seq<byte>, cur: nat, a: seq<byte>, b: seq<byte>)
    requires cur + |a| <= |buf| <= cur + |a| + |b| && buf[cur..] == (a + b)[..|buf| - cur]
    ensures At(buf, cur, a) && buf[cur + |a|..] == b[..|buf| - cur - |a|]
  {
    var rest, k := buf[cur + |a|..], |buf| - cur;
    forall i | 0 <= i < |a|
      ensures buf[cur + i] == a[i]
    {
      assert buf[cur + i] == buf[cur..][i] == (a + b)[..k][i];
    }
    forall i | 0 <= i < |rest|
      ensures rest[i] == b[i]
    {
      assert rest[i] == buf[cur..][|a| + i] == (a + b)[..k][|a| + i];
    }
  }

  lemma WholeStep(slots: seq<Slot>, fs: seq<Field>, k: nat)
    requires fs != [] && |slots| == |fs| && k >= |EncField(fs[0])|
    ensures var k' := k - |EncField(fs[0])|;
            && Whole(fs, k) == 1 + Whole(fs[1..], k')
            && (CleanCut(fs, k) <==> CleanCut(fs[1..], k'))
            && fs[..Whole(fs, k)] == [fs[0]] + fs[1..][..Whole(fs[1..], k')]
            && slots[Whole(fs, k)..] == slots[1..][Whole(fs[1..], k')..]
  {
    hide EncField;
  }

  lemma CutFirst(buf: seq<byte>, cur: nat, slots: seq<Slot>, fs: seq<Field>)
    requires fs != [] && FitFields(fs) && OrderedFields(fs) && OrderedSlots(slots) && ConformFields(slots, fs)
    requires AllOptional(slots)
    requires cur <= |buf| < cur + |EncField(fs[0])| && buf[cur..] == EncFields(fs)[..|buf| - cur]
    ensures if CleanCut(fs, |buf| - cur) then
              Whole(fs, |buf| - cur) == 0 && ReadSlots(buf, cur, slots) == Got(Defaults(slots), cur)
            else ReadSlots(buf, cur, slots).Bad?
  {
    hide ReadSlot, FitsField, OrderedField, OrderedSlot, ConformField, PeekHead;
    var f, k := fs[0], |buf| - cur;
    assert EncFields(fs)[..k] == EncField(f)[..k];
    CutSlot(buf, cur, slots[0], f);
    if k < |Head(KindOf(f.val), f.tag)| {
      StuckSlots(buf, cur, slots);
    }
  }

  /** Decoding the first k bytes of a record of optional fields with its own readFrom either throws, or
      gives the fields that lie whole in those bytes and defaults for the others; and it does the
      second exactly when the cut is clean. */
  lemma PrefixDecoding(slots: seq<Slot>, fs: seq<Field>, k: nat)
    requires FitFields(fs) && OrderedFields(fs) && OrderedSlots(slots) && ConformFields(slots, fs) && AllOptional(slots)
    requires k <= |EncFields(fs)|
    ensures var g := ReadSlots(EncFields(fs)[..k], 0, slots);
            && (g.Got? <==> CleanCut(fs, k))
            && (g.Got? ==> g.v == fs[..Whole(fs, k)] + Defaults(slots[Whole(fs, k)..]))
  {
    hide ReadSlots, FitFields, OrderedFields, OrderedSlots, ConformFields, AllOptional, EncFields, Whole, CleanCut;
    var buf := EncFields(fs)[..k];
    assert buf[0..] == buf;
    CutRecord(buf, 0, slots, fs);
  }

  /** A field of tag 15 cut after one byte: half a head is as good as none, and the read finds nothing. */
  lemma HalfHeadIsAbsent()
    ensures var slots, fs := [Slot(15, Int32T, false, IntV(0))], [Field(15, IntV(1))];
            var g := ReadSlots(EncFields(fs)[..1], 0, slots);
            |EncFields(fs)| == 3 && g.Got? && g.v == [Field(15, IntV(0))]
  {
    hide ReadSlots;
    var slots, fs := [Slot(15, Int32T, false, IntV(0))], [Field(15, IntV(1))];
    assert slots[1..] == [] && fs[1..] == [] && |EncField(fs[0])| == 3;
    assert Pow256(4) == 0x1_0000_0000 && Pow256(8) == 0x1_0000_0000_0000_0000;
    assert Fits(IntV(1)) && FitsField(fs[0]) && OrderedField(fs[0]) && OrderedSlot(slots[0]) &&
           ConformField(slots[0], fs[0]);
    PrefixDecoding(slots, fs, 1);
    assert slots[0..] == slots && fs[..0] == [];
  }
}
