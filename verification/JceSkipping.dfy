/** skipField moves over exactly one encoded value, whatever it is and whatever follows it. */
module JceSkipping {
  import opened Wrappers
  import opened Bytes
  import opened JceValue
  import opened JceReader
  import opened JceIntegers

  /** The step that ends exactly at a cursor, without an exception. */
  predicate Reaches<T>(r: Step<T>, cur: nat)
  {
    r.Done? && r.cur == cur
  }

  lemma {:induction false} FieldSkips(buf: seq<byte>, cur: nat, v: Value, tag: byte)
    requires Fits(v) && At(buf, cur, Enc(v, tag))
    ensures Reaches(SkipField(buf, cur), cur + |Enc(v, tag)|)
    decreases v, 1
  {
    hide SkipBody, PeekHead, Head, Body, KindOf;
    AtSplit(buf, cur, Head(KindOf(v), tag), Body(v));
    HeadPeek(buf, cur, KindOf(v), tag);
    BodySkips(buf, cur + |Head(KindOf(v), tag)|, v);
  }

  lemma {:induction false} BodySkips(buf: seq<byte>, cur: nat, v: Value)
    requires Fits(v) && At(buf, cur, Body(v))
    ensures Reaches(SkipBody(buf, cur, KindOf(v)), cur + |Body(v)|)
    decreases v, 0
  {
    hide SkipBody;
    match v
    case IntV(_) => ScalarSkips(buf, cur, v);
    case FloatV(_) => ScalarSkips(buf, cur, v);
    case DoubleV(_) => ScalarSkips(buf, cur, v);
    case StringV(s) => StringSkips(buf, cur, s);
    case BytesV(b) => SimpleListSkips(buf, cur, b);
    case ListV(items) => ListSkips(buf, cur, items);
    case MapV(entries) => MapSkips(buf, cur, entries);
    case StructV(fields) => StructSkips(buf, cur, fields);
  }

  lemma {:induction false} StructSkips(buf: seq<byte>, cur: nat, fs: seq<Field>)
    requires FitFields(fs) && At(buf, cur, EncFields(fs) + Head(STRUCT_END, 0))
    ensures Reaches(SkipBody(buf, cur, STRUCT_BEGIN), cur + |EncFields(fs)| + 1)
    decreases fs, 1
  {
    hide SkipToStructEnd;
    FieldsSkip(buf, cur, fs);
  }

  lemma ScalarSkips(buf: seq<byte>, cur: nat, v: Value)
    requires v.IntV? || v.FloatV? || v.DoubleV?
    ensures Reaches(SkipBody(buf, cur, KindOf(v)), cur + |Body(v)|)
  {
  }

  lemma {:induction false} ListSkips(buf: seq<byte>, cur: nat, items: seq<Value>)
    requires Fits(ListV(items)) && At(buf, cur, EncInt(|items|, 0) + EncItems(items))
    ensures Reaches(SkipBody(buf, cur, LIST), cur + |EncInt(|items|, 0)| + |EncItems(items)|)
    decreases items, 1
  {
    hide SkipCount, ReadInt, EncInt, EncItems, SkipElements, Pow256;
    AtSplit(buf, cur, EncInt(|items|, 0), EncItems(items));
    ItemsSkip(buf, cur + |EncInt(|items|, 0)|, items);
    ElementsSkip(buf, cur, |items|, 1, |items|);
  }

  lemma {:induction false} MapSkips(buf: seq<byte>, cur: nat, es: seq<Entry>)
    requires Fits(MapV(es)) && At(buf, cur, EncInt(|es|, 0) + EncEntries(es))
    ensures Reaches(SkipBody(buf, cur, MAP), cur + |EncInt(|es|, 0)| + |EncEntries(es)|)
    decreases es, 1
  {
    hide SkipCount, ReadInt, EncInt, EncEntries, SkipElements, Pow256;
    AtSplit(buf, cur, EncInt(|es|, 0), EncEntries(es));
    EntriesSkip(buf, cur + |EncInt(|es|, 0)|, es);
    ElementsSkip(buf, cur, |es|, 2, 2 * |es|);
  }

  lemma SizeReads(buf: seq<byte>, cur: nat, n: nat)
    requires n < 0x8000_0000 && At(buf, cur, EncInt(n, 0))
    ensures ReadInt(buf, cur, 4, 0) == Done(Some(n), cur + |EncInt(n, 0)|, 2)
    ensures ReadInt(buf, cur, 8, 0) == Done(Some(n), cur + |EncInt(n, 0)|, 2)
  {
    Powers();
    IntReadsBack(buf, cur, n, 0, 4);
    IntReadsBack(buf, cur, n, 0, 8);
  }

  /** The counted skip is the loop after the count. */
  lemma ElementsSkip(buf: seq<byte>, cur: nat, n: nat, per: nat, total: nat)
    requires 1 <= per && total == n * per < 0x8000_0000 && At(buf, cur, EncInt(n, 0))
    ensures SkipElements(buf, cur, per) == SkipCount(buf, cur + |EncInt(n, 0)|, total).After(2)
  {
    hide SkipCount, ReadInt, EncInt;
    SizeReads(buf, cur, n);
  }

  lemma StringSkips(buf: seq<byte>, cur: nat, s: seq<byte>)
    requires Fits(StringV(s)) && At(buf, cur, Body(StringV(s)))
    ensures Reaches(SkipBody(buf, cur, KindOf(StringV(s))), cur + |Body(StringV(s))|)
  {
    if |s| > 255 {
      Powers();
      AtSplit(buf, cur, Wire(|s|, 4), s);
      WireRoundTrip(|s|, 4);
    } else {
      AtSplit(buf, cur, [|s|], s);
      ByteReads(|s|);
    }
  }

  lemma ByteReads(b: byte)
    ensures Unwire([b]) == b
  {
    assert FromLittle([b]) == b + 256 * FromLittle([]);
  }

  lemma SimpleListSkips(buf: seq<byte>, cur: nat, b: seq<byte>)
    requires Fits(BytesV(b)) && At(buf, cur, Body(BytesV(b)))
    ensures Reaches(SkipBody(buf, cur, SIMPLE_LIST), cur + |Body(BytesV(b))|)
  {
    hide ReadInt, EncInt, Pow256;
    var h, n := Head(CHAR, 0), EncInt(|b|, 0);
    AtSplit(buf, cur, h + n, b);
    AtSplit(buf, cur, h, n);
    HeadPeek(buf, cur, CHAR, 0);
    SizeReads(buf, cur + |h|, |b|);
  }

  lemma {:induction false} ItemsSkip(buf: seq<byte>, cur: nat, items: seq<Value>)
    requires FitItems(items) && At(buf, cur, EncItems(items))
    ensures Reaches(SkipCount(buf, cur, |items|), cur + |EncItems(items)|)
    decreases items, 0
  {
    hide SkipField, Enc, SkipCount, Fits;
    if items == [] {
      SkipNone(buf, cur);
    } else {
      AtSplit(buf, cur, Enc(items[0], 0), EncItems(items[1..]));
      FieldSkips(buf, cur, items[0], 0);
      ItemsSkip(buf, cur + |Enc(items[0], 0)|, items[1..]);
      SkipOne(buf, cur, |items|);
    }
  }

  lemma {:induction false} EntrySkips(buf: seq<byte>, cur: nat, e: Entry)
    requires FitsEntry(e) && At(buf, cur, EncEntry(e))
    ensures var mid := cur + |Enc(e.key, 0)|;
            Reaches(SkipField(buf, cur), mid) && Reaches(SkipField(buf, mid), cur + |EncEntry(e)|)
    decreases e
  {
    hide SkipField, Enc;
    AtSplit(buf, cur, Enc(e.key, 0), Enc(e.val, 1));
    FieldSkips(buf, cur, e.key, 0);
    FieldSkips(buf, cur + |Enc(e.key, 0)|, e.val, 1);
  }

  lemma SkipNone(buf: seq<byte>, cur: nat)
    ensures SkipCount(buf, cur, 0) == Done((), cur, 0)
  {
  }

  lemma SkipOne(buf: seq<byte>, cur: nat, n: nat)
    requires n >= 1 && SkipField(buf, cur).Done?
    ensures var s := SkipField(buf, cur);
            SkipCount(buf, cur, n) == SkipCount(buf, s.cur, n - 1).After(s.peeks)
  {
  }

  lemma {:induction false} EntriesSkip(buf: seq<byte>, cur: nat, es: seq<Entry>)
    requires FitEntries(es) && At(buf, cur, EncEntries(es))
    ensures Reaches(SkipCount(buf, cur, 2 * |es|), cur + |EncEntries(es)|)
    decreases es, 0
  {
    hide SkipField, EncEntry, SkipCount, Enc, FitsEntry, Fits;
    if es == [] {
      SkipNone(buf, cur);
    } else {
      AtSplit(buf, cur, EncEntry(es[0]), EncEntries(es[1..]));
      EntrySkips(buf, cur, es[0]);
      var next := cur + |EncEntry(es[0])|;
      EntriesSkip(buf, next, es[1..]);
      SkipOne(buf, cur + |Enc(es[0].key, 0)|, 2 * |es| - 1);
      SkipOne(buf, cur, 2 * |es|);
    }
  }

  lemma FixedSkips(buf: seq<byte>, cur: nat, kind: Kind)
    requires FixedSize(kind).Some?
    ensures Reaches(SkipBody(buf, cur, kind), cur + FixedSize(kind).value)
  {
  }

  lemma StructEndSkips(buf: seq<byte>, cur: nat)
    requires At(buf, cur, Head(STRUCT_END, 0))
    ensures Reaches(SkipToStructEnd(buf, cur), cur + 1)
  {
    hide PeekHead;
    HeadPeek(buf, cur, STRUCT_END, 0);
    assert ReadHead(buf, cur) == Done(DataHead(STRUCT_END, 0), cur + 1, 1);
    assert FixedSize(STRUCT_END).Some?;
    assert FixedSize(STRUCT_END).value == 0;
    FixedSkips(buf, cur + 1, STRUCT_END);
    assert Reaches(SkipBody(buf, cur + 1, STRUCT_END), cur + 1);
  }

  /** skipToStructEnd past one field. */
  lemma StructStep(buf: seq<byte>, cur: nat, h: DataHead, n: nat, next: nat)
    requires PeekHead(buf, cur) == Some((h, n)) && h.kind != STRUCT_END
    requires Reaches(SkipBody(buf, cur + n, h.kind), next)
    ensures SkipToStructEnd(buf, next).Done? ==>
              Reaches(SkipToStructEnd(buf, cur), SkipToStructEnd(buf, next).cur)
    ensures SkipToStructEnd(buf, next).Raised? ==> SkipToStructEnd(buf, cur).Raised?
  {
    hide SkipBody, PeekHead;
  }

  lemma {:induction false} FieldsSkip(buf: seq<byte>, cur: nat, fs: seq<Field>)
    requires FitFields(fs) && At(buf, cur, EncFields(fs) + Head(STRUCT_END, 0))
    ensures Reaches(SkipToStructEnd(buf, cur), cur + |EncFields(fs)| + 1)
    decreases fs, 0
  {
    hide SkipBody, EncField, PeekHead, Head, SkipToStructEnd;
    var end := Head(STRUCT_END, 0);
    if fs == [] {
      assert EncFields(fs) + end == end;
      StructEndSkips(buf, cur);
    } else {
      assert EncFields(fs) + end == EncField(fs[0]) + (EncFields(fs[1..]) + end);
      AtSplit(buf, cur, EncField(fs[0]), EncFields(fs[1..]) + end);
      FieldStep(buf, cur, fs[0]);
      var f := fs[0];
      var next := cur + |EncField(f)|;
      FieldsSkip(buf, next, fs[1..]);
      StructStep(buf, cur, DataHead(KindOf(f.val), f.tag), |Head(KindOf(f.val), f.tag)|, next);
    }
  }

  /** One turn of a skipping loop: a head that is no StructEnd, then a body skipped exactly. */
  lemma {:induction false} FieldStep(buf: seq<byte>, cur: nat, f: Field)
    requires FitsField(f) && At(buf, cur, EncField(f))
    ensures var h := Head(KindOf(f.val), f.tag);
            && PeekHead(buf, cur) == Some((DataHead(KindOf(f.val), f.tag), |h|))
            && Reaches(SkipBody(buf, cur + |h|, KindOf(f.val)), cur + |EncField(f)|)
    decreases f
  {
    hide SkipBody, PeekHead, Head, Body, KindOf;
    assert EncField(f) == Enc(f.val, f.tag) == Head(KindOf(f.val), f.tag) + Body(f.val);
    AtSplit(buf, cur, Head(KindOf(f.val), f.tag), Body(f.val));
    HeadPeek(buf, cur, KindOf(f.val), f.tag);
    BodySkips(buf, cur + |Head(KindOf(f.val), f.tag)|, f.val);
  }

  /** Hence the encoding is self-delimiting: no encoded value is a proper prefix of another. */
  lemma EncodingIsSelfDelimiting(v: Value, w: Value, s: byte, t: byte, rest: seq<byte>, rest': seq<byte>)
    requires Fits(v) && Fits(w) && Enc(v, s) + rest == Enc(w, t) + rest'
    ensures Enc(v, s) == Enc(w, t) && rest == rest'
  {
    hide SkipField, Enc, Fits;
    var buf := Enc(v, s) + rest;
    assert At(buf, 0, Enc(v, s));
    assert At(buf, 0, Enc(w, t)) by {
      assert buf[..|Enc(w, t)|] == Enc(w, t);
    }
    FieldSkips(buf, 0, v, s);
    FieldSkips(buf, 0, w, t);
    assert rest == buf[|Enc(v, s)|..];
    assert rest' == buf[|Enc(w, t)|..];
  }
}
