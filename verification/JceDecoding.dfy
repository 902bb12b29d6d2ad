/** The reader with its forward-only cursor agrees with lookup, on every value at every type. */
module JceDecoding {
  import opened Wrappers
  import opened Bytes
  import opened JceValue
  import opened JceReader
  import opened JceSchema
  import opened JceLookup
  import opened JceIntegers
  import opened JceSkipping

  /** A read that came out as lookup says; on success the cursor stands at `end`. */
  predicate Agrees<T(==)>(g: Got<T>, r: Result<T, Error>, end: nat)
  {
    match r
    case Success(w) => g == Got(w, end)
    case Failure(e) => g == Bad(e)
  }

  // Records: a run of fields up to the end of the buffer or a StructEnd.

  predicate Ends(buf: seq<byte>, end: nat)
  {
    end == |buf| || (PeekHead(buf, end).Some? && PeekHead(buf, end).value.0.kind == STRUCT_END)
  }

  /** The fields end at `end`, and the record with them. */
  predicate Tail(buf: seq<byte>, end: nat, fs: seq<Field>)
  {
    |EncFields(fs)| <= end && At(buf, end - |EncFields(fs)|, EncFields(fs)) && Ends(buf, end)
  }

  function Pos(end: nat, fs: seq<Field>): nat
    requires |EncFields(fs)| <= end
  {
    end - |EncFields(fs)|
  }

  lemma TailStep(buf: seq<byte>, end: nat, fs: seq<Field>)
    requires Tail(buf, end, fs) && fs != []
    ensures Tail(buf, end, fs[1..])
    ensures At(buf, Pos(end, fs), EncField(fs[0]))
    ensures Pos(end, fs[1..]) == Pos(end, fs) + |EncField(fs[0])|
  {
    hide EncField, Ends;
    AtSplit(buf, Pos(end, fs), EncField(fs[0]), EncFields(fs[1..]));
  }

  lemma TailPeek(buf: seq<byte>, end: nat, fs: seq<Field>)
    requires Tail(buf, end, fs) && fs != []
    ensures var h := Head(KindOf(fs[0].val), fs[0].tag);
            && PeekHead(buf, Pos(end, fs)) == Some((DataHead(KindOf(fs[0].val), fs[0].tag), |h|))
            && At(buf, Pos(end, fs) + |h|, Body(fs[0].val))
            && Pos(end, fs) + |h| + |Body(fs[0].val)| == Pos(end, fs[1..])
    ensures Pos(end, fs) < |buf|
  {
    hide Head, Body, KindOf, PeekHead, EncFields;
    var f := fs[0];
    TailStep(buf, end, fs);
    assert EncField(f) == Enc(f.val, f.tag) == Head(KindOf(f.val), f.tag) + Body(f.val);
    AtSplit(buf, Pos(end, fs), Head(KindOf(f.val), f.tag), Body(f.val));
    HeadPeek(buf, Pos(end, fs), KindOf(f.val), f.tag);
  }

  /** The fields from the first tag that is not below t. */
  function Seek(fs: seq<Field>, t: byte): seq<Field>
  {
    if fs == [] || t <= fs[0].tag then fs else Seek(fs[1..], t)
  }

  predicate Hit(fs: seq<Field>, t: byte)
  {
    fs != [] && fs[0].tag == t
  }

  /** The fields with a tag above t. */
  function After(fs: seq<Field>, t: byte): seq<Field>
  {
    if Hit(Seek(fs, t), t) then Seek(fs, t)[1..] else Seek(fs, t)
  }

  lemma SeekStops(buf: seq<byte>, end: nat, fs: seq<Field>, t: byte)
    requires Tail(buf, end, fs) && (fs == [] || t <= fs[0].tag)
    ensures SkipToTag(buf, Pos(end, fs), t).cur == Pos(end, fs)
    ensures SkipToTag(buf, Pos(end, fs), t).found <==> Hit(fs, t)
  {
    hide PeekHead, SkipBody;
    if fs != [] {
      TailPeek(buf, end, fs);
    }
  }

  lemma SeekSkips(buf: seq<byte>, end: nat, fs: seq<Field>, t: byte)
    requires Tail(buf, end, fs) && fs != [] && fs[0].tag < t && FitFields(fs)
    ensures Tail(buf, end, fs[1..])
    ensures var r := SkipToTag(buf, Pos(end, fs[1..]), t);
            SkipToTag(buf, Pos(end, fs), t).cur == r.cur && SkipToTag(buf, Pos(end, fs), t).found == r.found
  {
    hide PeekHead, SkipBody, Head, Body, EncFields;
    TailStep(buf, end, fs);
    TailPeek(buf, end, fs);
    BodySkips(buf, Pos(end, fs) + |Head(KindOf(fs[0].val), fs[0].tag)|, fs[0].val);
  }

  /** skipToTag lands on the first field not below the wanted tag, and tells whether it is the one. */
  lemma {:induction false} SeekFields(buf: seq<byte>, end: nat, fs: seq<Field>, t: byte)
    requires Tail(buf, end, fs) && FitFields(fs)
    ensures Tail(buf, end, Seek(fs, t))
    ensures SkipToTag(buf, Pos(end, fs), t).cur == Pos(end, Seek(fs, t))
    ensures SkipToTag(buf, Pos(end, fs), t).found <==> Hit(Seek(fs, t), t)
    decreases |fs|
  {
    hide SkipToTag, EncFields, Tail;
    if fs == [] || t <= fs[0].tag {
      SeekStops(buf, end, fs, t);
    } else {
      SeekSkips(buf, end, fs, t);
      SeekFields(buf, end, fs[1..], t);
    }
  }

  lemma {:induction false} SeekKeeps(fs: seq<Field>, t: byte)
    requires FitFields(fs) && Ascending(fs) && OrderedFields(fs)
    ensures var s := Seek(fs, t); FitFields(s) && Ascending(s) && OrderedFields(s)
    ensures var a := After(fs, t); FitFields(a) && Ascending(a) && OrderedFields(a)
    decreases |fs|
  {
    if fs != [] && fs[0].tag < t {
      SeekKeeps(fs[1..], t);
    }
  }

  lemma {:induction false} LookupAbove(fs: seq<Field>, t: byte)
    requires forall i :: 0 <= i < |fs| ==> t < fs[i].tag
    ensures Lookup(fs, t) == None
    decreases |fs|
  {
    if fs != [] {
      LookupAbove(fs[1..], t);
    }
  }

  /** In an ascending record a lookup is decided where the seek stops. */
  lemma {:induction false} LookupSeek(fs: seq<Field>, t: byte)
    requires Ascending(fs)
    ensures Lookup(fs, t) == if Hit(Seek(fs, t), t) then Some(Seek(fs, t)[0].val) else None
    decreases |fs|
  {
    if fs == [] {
    } else if fs[0].tag < t {
      LookupSeek(fs[1..], t);
    } else if fs[0].tag > t {
      LookupAbove(fs, t);
    }
  }

  /** Passing fields up to t loses no later tag. */
  lemma {:induction false} LookupAfter(fs: seq<Field>, t: byte, later: byte)
    requires t < later
    ensures Lookup(After(fs, t), later) == Lookup(fs, later)
    decreases |fs|
  {
    if fs != [] && fs[0].tag < t {
      LookupAfter(fs[1..], t, later);
    }
  }

  lemma {:induction false} ProjectAfter(slots: seq<Slot>, fs: seq<Field>, t: byte)
    requires forall i :: 0 <= i < |slots| ==> t < slots[i].tag
    ensures ProjectSlots(slots, After(fs, t)) == ProjectSlots(slots, fs)
    decreases |slots|
  {
    hide After, ProjectSlot, Lookup;
    if slots != [] {
      LookupAfter(fs, t, slots[0].tag);
      ProjectAfter(slots[1..], fs, t);
    }
  }

  /** What the cursor has not passed after a readFrom. */
  function Rest(slots: seq<Slot>, fs: seq<Field>): seq<Field>
    decreases |slots|
  {
    if slots == [] then fs else Rest(slots[1..], After(fs, slots[0].tag))
  }

  // Values

  lemma EncLengths(items: seq<Value>)
    ensures |items| <= |EncItems(items)|
    decreases |items|
  {
    hide Enc;
    if items != [] {
      EncLengths(items[1..]);
    }
  }

  lemma EncEntryLengths(es: seq<Entry>)
    ensures |es| <= |EncEntries(es)|
    decreases |es|
  {
    hide Enc;
    if es != [] {
      assert |EncEntry(es[0])| >= 1;
      EncEntryLengths(es[1..]);
    }
  }

  lemma SizeBack(buf: seq<byte>, cur: nat, n: nat)
    requires n < 0x8000_0000 && At(buf, cur, EncInt(n, 0))
    ensures ReadSize(buf, cur) == Got(n, cur + |EncInt(n, 0)|)
  {
    hide ReadInt, EncInt;
    SizeReads(buf, cur, n);
  }

  /** Reading a written value at any type is projecting it to that type. */
  lemma {:induction false} ReadsBack(buf: seq<byte>, cur: nat, ty: Ty, v: Value, tag: byte)
    requires Fits(v) && Ordered(v) && OrderedTy(ty)
    requires At(buf, cur, Enc(v, tag))
    ensures Agrees(ReadRequired(buf, cur, ty, tag), Project(ty, v), cur + |Enc(v, tag)|)
    decreases ty, 2, 0
  {
    hide SkipToTag, ReadHead, ReadBody, Head, Body, KindOf, Project, Fits, Ordered, OrderedTy;
    AtSplit(buf, cur, Head(KindOf(v), tag), Body(v));
    KindTells(v);
    SeekHere(buf, cur, KindOf(v), tag);
    BodyReadsBack(buf, cur + |Head(KindOf(v), tag)|, ty, v);
  }

  lemma {:induction false} BodyReadsBack(buf: seq<byte>, cur: nat, ty: Ty, v: Value)
    requires Fits(v) && Ordered(v) && OrderedTy(ty)
    requires At(buf, cur, Body(v))
    ensures Agrees(ReadBody(buf, cur, ty, KindOf(v)), Project(ty, v), cur + |Body(v)|)
    decreases ty, 1, 0
  {
    hide ReadBody, Project, Body, Fits, Ordered, KindOf;
    match ty
    case FloatT => FloatsBack(buf, cur, ty, v);
    case DoubleT => FloatsBack(buf, cur, ty, v);
    case StringT => StringBack(buf, cur, v);
    case BytesT => BytesBack(buf, cur, v);
    case ListT(elem) => ListBack(buf, cur, elem, v);
    case MapT(key, val) => MapBack(buf, cur, key, val, v);
    case StructT(slots) => StructBack(buf, cur, slots, v);
    case _ => IntsBack(buf, cur, ty, v);
  }

  lemma IntsBack(buf: seq<byte>, cur: nat, ty: Ty, v: Value)
    requires Fits(v) && ReadWidth(ty) != 0 && At(buf, cur, Body(v))
    ensures Agrees(ReadBody(buf, cur, ty, KindOf(v)), Project(ty, v), cur + |Body(v)|)
  {
    hide IntBody, Cast, Pow256, FitsSigned, ReadIntBody;
    if v.IntV? {
      IntBodyReads(buf, cur, v.n, ReadWidth(ty));
    } else {
      NoIntIsMismatch(buf, cur, v, ReadWidth(ty));
    }
  }

  lemma NoIntIsMismatch(buf: seq<byte>, cur: nat, v: Value, w: nat)
    requires !v.IntV? && (w == 1 || w == 2 || w == 4 || w == 8)
    ensures ReadIntBody(buf, cur, KindOf(v), w).Raised? && ReadIntBody(buf, cur, KindOf(v), w).e == Mismatch
  {
  }

  lemma FloatsBack(buf: seq<byte>, cur: nat, ty: Ty, v: Value)
    requires Fits(v) && (ty == FloatT || ty == DoubleT) && At(buf, cur, Body(v))
    ensures Agrees(ReadBody(buf, cur, ty, KindOf(v)), Project(ty, v), cur + |Body(v)|)
  {
    hide Wire, Unwire, Pow256;
    if v.FloatV? {
      WireRoundTrip(v.bits, 4);
    } else if v.DoubleV? {
      WireRoundTrip(v.bits, 8);
    }
  }

  lemma StringBack(buf: seq<byte>, cur: nat, v: Value)
    requires Fits(v) && At(buf, cur, Body(v))
    ensures Agrees(ReadBody(buf, cur, StringT, KindOf(v)), Project(StringT, v), cur + |Body(v)|)
  {
    hide ReadString, Body, KindOf;
    if v.StringV? {
      CharsBack(buf, cur, v.s);
    } else {
      NoStringKind(buf, cur, v);
    }
  }

  lemma NoStringKind(buf: seq<byte>, cur: nat, v: Value)
    requires !v.StringV?
    ensures ReadString(buf, cur, KindOf(v)) == Bad(Mismatch)
  {
    hide KindOf;
    KindTells(v);
  }

  lemma CharsBack(buf: seq<byte>, cur: nat, s: seq<byte>)
    requires |s| <= MAX_STRING_LENGTH && At(buf, cur, Body(StringV(s)))
    ensures ReadString(buf, cur, KindOf(StringV(s))) == Got(StringV(s), cur + |Body(StringV(s))|)
  {
    hide Wire, Unwire, Pow256;
    if |s| > 255 {
      Powers();
      AtSplit(buf, cur, Wire(|s|, 4), s);
      WireRoundTrip(|s|, 4);
    } else {
      AtSplit(buf, cur, [|s|], s);
      ByteReads(|s|);
    }
  }

  lemma KindTells(v: Value)
    ensures KindOf(v) == STRUCT_BEGIN <==> v.StructV?
    ensures KindOf(v) == MAP <==> v.MapV?
    ensures KindOf(v) == LIST <==> v.ListV?
    ensures KindOf(v) == SIMPLE_LIST <==> v.BytesV?
    ensures KindOf(v) in {STRING1, STRING4} <==> v.StringV?
    ensures KindOf(v) != STRUCT_END
  {
  }

  lemma BytesBack(buf: seq<byte>, cur: nat, v: Value)
    requires Fits(v) && At(buf, cur, Body(v))
    ensures Agrees(ReadBody(buf, cur, BytesT, KindOf(v)), Project(BytesT, v), cur + |Body(v)|)
  {
    hide ReadBytes, ProjectChars, Body, Fits;
    match v
    case BytesV(b) => BlockBack(buf, cur, b);
    case ListV(items) => CharListBack(buf, cur, items);
    case _ => NoBytesKind(buf, cur, v);
  }

  lemma NoBytesKind(buf: seq<byte>, cur: nat, v: Value)
    requires !v.BytesV? && !v.ListV?
    ensures ReadBytes(buf, cur, KindOf(v)) == Bad(Mismatch)
  {
    hide KindOf;
    KindTells(v);
  }

  lemma BlockBack(buf: seq<byte>, cur: nat, b: seq<byte>)
    requires Fits(BytesV(b)) && At(buf, cur, Body(BytesV(b)))
    ensures ReadBytes(buf, cur, SIMPLE_LIST) == Got(BytesV(b), cur + |Body(BytesV(b))|)
  {
    hide ReadSize, EncInt, PeekHead, Head;
    var h, n := Head(CHAR, 0), EncInt(|b|, 0);
    assert Body(BytesV(b)) == h + n + b;
    AtSplit(buf, cur, h + n, b);
    AtSplit(buf, cur, h, n);
    HeadPeek(buf, cur, CHAR, 0);
    SizeBack(buf, cur + |h|, |b|);
  }

  lemma CharListBack(buf: seq<byte>, cur: nat, items: seq<Value>)
    requires Fits(ListV(items)) && At(buf, cur, Body(ListV(items)))
    ensures match ProjectChars(items)
            case Success(b) => ReadBytes(buf, cur, LIST) == Got(BytesV(b), cur + |Body(ListV(items))|)
            case Failure(e) => ReadBytes(buf, cur, LIST) == Bad(e)
  {
    hide ReadSize, ReadCharItems, EncInt, EncItems, ProjectChars;
    ListSize(buf, cur, items);
    CharItemsBack(buf, cur + |EncInt(|items|, 0)|, items, []);
    if ProjectChars(items).Success? {
      assert [] + ProjectChars(items).v == ProjectChars(items).v;
    }
  }

  /** The count of a written list is read back, the size guard lets it pass, and the elements follow. */
  lemma ListSize(buf: seq<byte>, cur: nat, items: seq<Value>)
    requires Fits(ListV(items)) && At(buf, cur, Body(ListV(items)))
    ensures ReadSize(buf, cur) == Got(|items|, cur + |EncInt(|items|, 0)|)
    ensures |items| <= |buf|
    ensures At(buf, cur + |EncInt(|items|, 0)|, EncItems(items))
    ensures |Body(ListV(items))| == |EncInt(|items|, 0)| + |EncItems(items)|
  {
    hide ReadSize, EncInt, EncItems;
    AtSplit(buf, cur, EncInt(|items|, 0), EncItems(items));
    SizeBack(buf, cur, |items|);
    EncLengths(items);
  }

  lemma {:induction false} CharItemsBack(buf: seq<byte>, cur: nat, items: seq<Value>, acc: seq<byte>)
    requires FitItems(items) && At(buf, cur, EncItems(items))
    ensures match ProjectChars(items)
            case Success(b) => ReadCharItems(buf, cur, |items|, acc) == Got(BytesV(acc + b), cur + |EncItems(items)|)
            case Failure(e) => ReadCharItems(buf, cur, |items|, acc) == Bad(e)
    decreases |items|
  {
    hide ReadInt, Enc, Fits, FitsSigned;
    if items == [] {
      assert acc + [] == acc;
    } else {
      AtSplit(buf, cur, Enc(items[0], 0), EncItems(items[1..]));
      CharBack(buf, cur, items[0]);
      if items[0].IntV? && FitsSigned(items[0].n, 1) {
        var c := Unsigned(items[0].n, 1);
        CharItemsBack(buf, cur + |Enc(items[0], 0)|, items[1..], acc + [c]);
        if ProjectChars(items[1..]).Success? {
          var b := ProjectChars(items[1..]).v;
          assert acc + [c] + b == acc + ([c] + b);
        }
      }
    }
  }

  lemma CharBack(buf: seq<byte>, cur: nat, v: Value)
    requires Fits(v) && At(buf, cur, Enc(v, 0))
    ensures var r := ReadInt(buf, cur, 1, 0);
            if v.IntV? && FitsSigned(v.n, 1) then r.Done? && r.v == Some(v.n) && r.cur == cur + |Enc(v, 0)|
            else r.Raised? && r.e == Mismatch
  {
    hide SkipToTag, PeekHead, Pow256, FitsSigned;
    if v.IntV? {
      hide ReadInt;
      assert Enc(v, 0) == EncInt(v.n, 0);
      IntReadsBack(buf, cur, v.n, 0, 1);
    } else {
      AtSplit(buf, cur, Head(KindOf(v), 0), Body(v));
      SeekHere(buf, cur, KindOf(v), 0);
    }
  }

  lemma {:induction false} ListBack(buf: seq<byte>, cur: nat, elem: Ty, v: Value)
    requires Fits(v) && Ordered(v) && OrderedTy(elem) && At(buf, cur, Body(v))
    ensures Agrees(ReadBody(buf, cur, ListT(elem), KindOf(v)), Project(ListT(elem), v), cur + |Body(v)|)
    decreases elem, 4, 0
  {
    hide ReadSize, ReadItems, ProjectItems, EncInt, EncItems, Body, KindOf, Fits, Ordered;
    hide ReadBody, OrderedTy, Project, At;
    KindTells(v);
    ListUnfold(buf, cur, elem, v);
    if v.ListV? {
      var items := v.items;
      FitsList(v);
      ListSize(buf, cur, items);
      ItemsBack(buf, cur + |EncInt(|items|, 0)|, elem, items, []);
      if ProjectItems(elem, items).Success? {
        assert [] + ProjectItems(elem, items).v == ProjectItems(elem, items).v;
      }
    }
  }

  /** The list case of the reader and of the projection, after the size. */
  lemma ListUnfold(buf: seq<byte>, cur: nat, elem: Ty, v: Value)
    ensures !v.ListV? && KindOf(v) != LIST ==>
              && ReadBody(buf, cur, ListT(elem), KindOf(v)) == Bad(Mismatch)
              && Project(ListT(elem), v) == Failure(Mismatch)
    ensures v.ListV? ==>
              match ProjectItems(elem, v.items)
              case Failure(e) => Project(ListT(elem), v) == Failure(e)
              case Success(ws) => Project(ListT(elem), v) == Success(ListV(ws))
    ensures var n := ReadSize(buf, cur);
            n.Got? && n.v <= |buf| ==>
              ReadBody(buf, cur, ListT(elem), LIST) == ReadItems(buf, n.cur, elem, n.v, [])
  {
    hide ReadSize, ReadItems, ProjectItems, KindOf;
  }

  lemma FitsList(v: Value)
    requires v.ListV? && Fits(v) && Ordered(v)
    ensures FitItems(v.items) && OrderedItems(v.items)
  {
  }

  lemma {:induction false} ItemsBack(buf: seq<byte>, cur: nat, elem: Ty, items: seq<Value>, acc: seq<Value>)
    requires FitItems(items) && OrderedItems(items) && OrderedTy(elem) && At(buf, cur, EncItems(items))
    ensures match ProjectItems(elem, items)
            case Success(ws) => ReadItems(buf, cur, elem, |items|, acc) == Got(ListV(acc + ws), cur + |EncItems(items)|)
            case Failure(e) => ReadItems(buf, cur, elem, |items|, acc) == Bad(e)
    decreases elem, 3, |items|
  {
    hide ReadRequired, Project, Enc, Fits, Ordered, OrderedTy;
    if items == [] {
      assert acc + [] == acc;
    } else {
      AtSplit(buf, cur, Enc(items[0], 0), EncItems(items[1..]));
      ReadsBack(buf, cur, elem, items[0], 0);
      if Project(elem, items[0]).Success? {
        var w := Project(elem, items[0]).v;
        ItemsBack(buf, cur + |Enc(items[0], 0)|, elem, items[1..], acc + [w]);
        if ProjectItems(elem, items[1..]).Success? {
          var ws := ProjectItems(elem, items[1..]).v;
          assert acc + [w] + ws == acc + ([w] + ws);
        }
      }
    }
  }

  lemma MapSize(buf: seq<byte>, cur: nat, es: seq<Entry>)
    requires Fits(MapV(es)) && At(buf, cur, Body(MapV(es)))
    ensures ReadSize(buf, cur) == Got(|es|, cur + |EncInt(|es|, 0)|)
    ensures |es| <= |buf|
    ensures At(buf, cur + |EncInt(|es|, 0)|, EncEntries(es))
    ensures |Body(MapV(es))| == |EncInt(|es|, 0)| + |EncEntries(es)|
  {
    hide ReadSize, EncInt, EncEntries;
    AtSplit(buf, cur, EncInt(|es|, 0), EncEntries(es));
    SizeBack(buf, cur, |es|);
    EncEntryLengths(es);
  }

  lemma FitsMap(v: Value)
    requires v.MapV? && Fits(v) && Ordered(v)
    ensures FitEntries(v.entries) && OrderedEntries(v.entries)
  {
  }

  lemma {:induction false} MapBack(buf: seq<byte>, cur: nat, key: Ty, val: Ty, v: Value)
    requires Fits(v) && Ordered(v) && OrderedTy(key) && OrderedTy(val) && At(buf, cur, Body(v))
    ensures Agrees(ReadBody(buf, cur, MapT(key, val), KindOf(v)), Project(MapT(key, val), v), cur + |Body(v)|)
    decreases MapT(key, val), 0, 1 + |if v.MapV? then v.entries else []|
  {
    hide ReadSize, ReadEntries, ProjectEntries, EncInt, EncEntries, InsertAll, KindOf, Fits, Ordered, OrderedTy, Body;
    KindTells(v);
    if v.MapV? {
      var es := v.entries;
      FitsMap(v);
      MapSize(buf, cur, es);
      EntriesBack(buf, cur + |EncInt(|es|, 0)|, key, val, es, []);
    }
  }

  lemma {:induction false} EntriesBack(buf: seq<byte>, cur: nat, key: Ty, val: Ty, es: seq<Entry>, acc: seq<Entry>)
    requires FitEntries(es) && OrderedEntries(es) && OrderedTy(key) && OrderedTy(val) && At(buf, cur, EncEntries(es))
    ensures match ProjectEntries(key, val, es)
            case Success(ws) => ReadEntries(buf, cur, key, val, |es|, acc) ==
              Got(MapV(InsertAll(acc, ws)), cur + |EncEntries(es)|)
            case Failure(e) => ReadEntries(buf, cur, key, val, |es|, acc) == Bad(e)
    decreases MapT(key, val), 0, |es|
  {
    hide ReadRequired, Project, EncEntry, Insert, FitsEntry, OrderedEntry, OrderedTy, ProjectEntry, ReadEntries;
    hide EncEntries, FitEntries, OrderedEntries, ProjectEntries, InsertAll, At, EntryRead;
    EntriesUnfold(key, val, es, acc);
    if es == [] {
      NoEntryLeft(buf, cur, key, val, acc);
    } else {
      var next := cur + |EncEntry(es[0])|;
      AtSplit(buf, cur, EncEntry(es[0]), EncEntries(es[1..]));
      EntryBack(buf, cur, key, val, es[0]);
      EntryTurn(buf, cur, key, val, |es|, acc, ProjectEntry(key, val, es[0]), next);
      if ProjectEntry(key, val, es[0]).Success? {
        var w := ProjectEntry(key, val, es[0]).v;
        EntriesBack(buf, next, key, val, es[1..], Insert(acc, w));
      }
    }
  }

  /** The two reads of an entry came out as the projection says. */
  predicate EntryRead(buf: seq<byte>, cur: nat, key: Ty, val: Ty, p: Result<Entry, Error>, next: nat)
  {
    var k := ReadRequired(buf, cur, key, 0);
    match p
    case Success(w) => k.Got? && k.v == w.key && ReadRequired(buf, k.cur, val, 1) == Got(w.val, next)
    case Failure(x) => k == Bad(x) || (k.Got? && ReadRequired(buf, k.cur, val, 1) == Bad(x))
  }

  /** Then so does one turn of the loop. */
  lemma EntryTurn(buf: seq<byte>, cur: nat, key: Ty, val: Ty, n: nat, acc: seq<Entry>,
                  p: Result<Entry, Error>, next: nat)
    requires n > 0 && EntryRead(buf, cur, key, val, p, next)
    ensures ReadEntries(buf, cur, key, val, n, acc) ==
            match p
            case Success(w) => ReadEntries(buf, next, key, val, n - 1, Insert(acc, w))
            case Failure(x) => Bad(x)
  {
    hide ReadRequired, Insert, ReadEntries;
    ReadEntriesStep(buf, cur, key, val, n, acc);
  }

  lemma NoEntryLeft(buf: seq<byte>, cur: nat, key: Ty, val: Ty, acc: seq<Entry>)
    ensures ReadEntries(buf, cur, key, val, 0, acc) == Got(MapV(acc), cur)
  {
  }

  lemma EntriesUnfold(key: Ty, val: Ty, es: seq<Entry>, acc: seq<Entry>)
    ensures InsertAll(acc, []) == acc
    ensures es == [] ==> EncEntries(es) == [] && ProjectEntries(key, val, es) == Success([])
    ensures es != [] ==> EncEntries(es) == EncEntry(es[0]) + EncEntries(es[1..])
    ensures es != [] && FitEntries(es) ==> FitsEntry(es[0]) && FitEntries(es[1..])
    ensures es != [] && OrderedEntries(es) ==> OrderedEntry(es[0]) && OrderedEntries(es[1..])
    ensures es != [] ==>
              var first, rest := ProjectEntry(key, val, es[0]), ProjectEntries(key, val, es[1..]);
              && (first.Failure? ==> ProjectEntries(key, val, es) == Failure(first.e))
              && (first.Success? && rest.Failure? ==> ProjectEntries(key, val, es) == Failure(rest.e))
              && (first.Success? && rest.Success? ==>
                    && ProjectEntries(key, val, es) == Success([first.v] + rest.v)
                    && InsertAll(acc, [first.v] + rest.v) == InsertAll(Insert(acc, first.v), rest.v))
  {
    hide EncEntry, FitsEntry, OrderedEntry, ProjectEntry, Insert;
    if es != [] && ProjectEntry(key, val, es[0]).Success? && ProjectEntries(key, val, es[1..]).Success? {
      var w, ws := ProjectEntry(key, val, es[0]).v, ProjectEntries(key, val, es[1..]).v;
      assert ([w] + ws)[1..] == ws;
    }
  }

  lemma ReadEntriesStep(buf: seq<byte>, cur: nat, key: Ty, val: Ty, n: nat, acc: seq<Entry>)
    ensures n == 0 ==> ReadEntries(buf, cur, key, val, n, acc) == Got(MapV(acc), cur)
    ensures n > 0 ==>
              var k := ReadRequired(buf, cur, key, 0);
              && (k.Bad? ==> ReadEntries(buf, cur, key, val, n, acc) == Bad(k.e))
              && (k.Got? ==>
                    var x := ReadRequired(buf, k.cur, val, 1);
                    && (x.Bad? ==> ReadEntries(buf, cur, key, val, n, acc) == Bad(x.e))
                    && (x.Got? ==> ReadEntries(buf, cur, key, val, n, acc) ==
                                   ReadEntries(buf, x.cur, key, val, n - 1, Insert(acc, Entry(k.v, x.v)))))
  {
    hide ReadRequired, Insert;
  }

  /** The two reads of a map entry, in turn. */
  lemma {:induction false} EntryBack(buf: seq<byte>, cur: nat, key: Ty, val: Ty, e: Entry)
    requires FitsEntry(e) && OrderedEntry(e) && OrderedTy(key) && OrderedTy(val) && At(buf, cur, EncEntry(e))
    ensures EntryRead(buf, cur, key, val, ProjectEntry(key, val, e), cur + |EncEntry(e)|)
    decreases MapT(key, val), 0, 0
  {
    hide ReadRequired, Project, Enc, Fits, Ordered, OrderedTy;
    AtSplit(buf, cur, Enc(e.key, 0), Enc(e.val, 1));
    ReadsBack(buf, cur, key, e.key, 0);
    ReadsBack(buf, cur + |Enc(e.key, 0)|, val, e.val, 1);
  }

  /** A slot whose tag is found gets what its body reads. */
  lemma SlotFound(buf: seq<byte>, cur: nat, slot: Slot, kind: Kind, c: nat)
    requires SkipToTag(buf, cur, slot.tag).found
    requires ReadHead(buf, SkipToTag(buf, cur, slot.tag).cur) == Done(DataHead(kind, slot.tag), c, 1)
    ensures var g := ReadBody(buf, c, slot.ty, kind);
            && (g.Bad? ==> ReadSlot(buf, cur, slot) == Bad(g.e))
            && (g.Got? ==> ReadSlot(buf, cur, slot) == Got(Field(slot.tag, g.v), g.cur))
  {
    hide SkipToTag, ReadHead, ReadBody;
  }

  lemma SlotMissed(buf: seq<byte>, cur: nat, slot: Slot)
    requires !SkipToTag(buf, cur, slot.tag).found
    ensures ReadSlot(buf, cur, slot) == if slot.required then Bad(RequireNotExist)
                                        else Got(Field(slot.tag, slot.default), SkipToTag(buf, cur, slot.tag).cur)
  {
    hide SkipToTag, ReadHead, ReadBody;
  }

  /** One read of a readFrom: skip to the tag, then the value or the default. */
  lemma {:induction false} SlotBack(buf: seq<byte>, end: nat, slot: Slot, fs: seq<Field>)
    requires FitFields(fs) && Ascending(fs) && OrderedFields(fs) && OrderedSlot(slot) && Tail(buf, end, fs)
    ensures Tail(buf, end, After(fs, slot.tag))
    ensures Agrees(ReadSlot(buf, Pos(end, fs), slot), ProjectSlot(slot, Lookup(fs, slot.tag)),
                   Pos(end, After(fs, slot.tag)))
    decreases slot, 0, 0
  {
    hide SkipToTag, ReadBody, Project, Head, Body, KindOf, PeekHead, EncFields, Tail, Lookup, Seek, ReadSlot, ReadHead;
    var s := Seek(fs, slot.tag);
    SeekFields(buf, end, fs, slot.tag);
    SeekKeeps(fs, slot.tag);
    LookupSeek(fs, slot.tag);
    if Hit(s, slot.tag) {
      HitStep(buf, end, s);
      var c := Pos(end, s) + |Head(KindOf(s[0].val), s[0].tag)|;
      SlotFound(buf, Pos(end, fs), slot, KindOf(s[0].val), c);
      BodyReadsBack(buf, c, slot.ty, s[0].val);
    } else {
      SlotMissed(buf, Pos(end, fs), slot);
    }
  }

  lemma HitStep(buf: seq<byte>, end: nat, s: seq<Field>)
    requires Tail(buf, end, s) && s != [] && FitFields(s) && OrderedFields(s)
    ensures Tail(buf, end, s[1..])
    ensures var h := Head(KindOf(s[0].val), s[0].tag);
            && ReadHead(buf, Pos(end, s)) == Done(DataHead(KindOf(s[0].val), s[0].tag), Pos(end, s) + |h|, 1)
            && At(buf, Pos(end, s) + |h|, Body(s[0].val))
            && Pos(end, s) + |h| + |Body(s[0].val)| == Pos(end, s[1..])
    ensures Fits(s[0].val) && Ordered(s[0].val)
  {
    hide Head, Body, KindOf, PeekHead, EncFields, Tail, Fits, Ordered;
    TailStep(buf, end, s);
    TailPeek(buf, end, s);
  }

  /** readFrom with ascending tags, on an ascending record, is a lookup per field: unknown fields
      before, between and after change nothing, and an absent field loses no later one. */
  lemma {:induction false} SlotsBack(buf: seq<byte>, end: nat, slots: seq<Slot>, fs: seq<Field>)
    requires FitFields(fs) && Ascending(fs) && OrderedFields(fs) && Tail(buf, end, fs)
    requires AscendingSlots(slots) && OrderedSlots(slots)
    ensures Tail(buf, end, Rest(slots, fs)) && FitFields(Rest(slots, fs))
    ensures Agrees(ReadSlots(buf, Pos(end, fs), slots), ProjectSlots(slots, fs), Pos(end, Rest(slots, fs)))
    decreases slots, 0, 0
  {
    hide ReadSlot, ProjectSlot, After, Tail, EncFields, Lookup, OrderedSlot, Ascending, FitFields, OrderedFields;
    if slots != [] {
      var t := slots[0].tag;
      SlotBack(buf, end, slots[0], fs);
      SeekKeeps(fs, t);
      SlotsBack(buf, end, slots[1..], After(fs, t));
      ProjectAfter(slots[1..], fs, t);
    }
  }

  /** A readFrom inside a struct, and then on to the end of the struct. */
  lemma {:induction false} StructInside(buf: seq<byte>, cur: nat, slots: seq<Slot>, fs: seq<Field>)
    requires FitFields(fs) && Ascending(fs) && OrderedFields(fs) && AscendingSlots(slots) && OrderedSlots(slots)
    requires At(buf, cur, EncFields(fs) + Head(STRUCT_END, 0))
    ensures match ProjectSlots(slots, fs)
            case Success(ws) =>
              var g := ReadSlots(buf, cur, slots);
              g.Got? && g.v == ws && Reaches(SkipToStructEnd(buf, g.cur), cur + |EncFields(fs)| + 1)
            case Failure(e) => ReadSlots(buf, cur, slots) == Bad(e)
    decreases slots, 1, 0
  {
    hide ReadSlots, ProjectSlots, SkipToStructEnd, EncFields, Rest;
    var end := cur + |EncFields(fs)|;
    AtSplit(buf, cur, EncFields(fs), Head(STRUCT_END, 0));
    HeadPeek(buf, end, STRUCT_END, 0);
    hide PeekHead, Head;
    SlotsBack(buf, end, slots, fs);
    var rest := Rest(slots, fs);
    AtJoin(buf, Pos(end, rest), EncFields(rest), Head(STRUCT_END, 0));
    FieldsSkip(buf, Pos(end, rest), rest);
  }

  lemma StructParts(v: Value)
    requires v.StructV? && Fits(v) && Ordered(v)
    ensures FitFields(v.fields) && Ascending(v.fields) && OrderedFields(v.fields)
    ensures Body(v) == EncFields(v.fields) + Head(STRUCT_END, 0)
    ensures |Body(v)| == |EncFields(v.fields)| + 1
  {
  }

  lemma {:induction false} StructBack(buf: seq<byte>, cur: nat, slots: seq<Slot>, v: Value)
    requires Fits(v) && Ordered(v) && AscendingSlots(slots) && OrderedSlots(slots) && At(buf, cur, Body(v))
    ensures Agrees(ReadBody(buf, cur, StructT(slots), KindOf(v)), Project(StructT(slots), v), cur + |Body(v)|)
    decreases slots, 2, 0
  {
    hide ReadSlots, ProjectSlots, SkipToStructEnd, EncFields, KindOf, Body, Fits, Ordered;
    hide Ascending, OrderedFields, FitFields, AscendingSlots, OrderedSlots, At, Head;
    KindTells(v);
    if v.StructV? {
      StructParts(v);
      StructInside(buf, cur, slots, v.fields);
    }
  }
}
