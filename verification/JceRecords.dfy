/** Main results about whole records: lookup, round trips, and what the decoder does not depend on. */
module JceRecords {
  import opened Wrappers
  import opened Bytes
  import opened JceValue
  import opened JceReader
  import opened JceSchema
  import opened JceLookup
  import opened JceDecoding

  lemma WholeBuffer(fs: seq<Field>)
    ensures Tail(EncFields(fs), |EncFields(fs)|, fs) && Pos(|EncFields(fs)|, fs) == 0
  {
    hide EncFields;
  }

  /** The exception lookup predicts, or the value it predicts. */
  predicate SameOutcome<T(==)>(g: Got<T>, r: Result<T, Error>)
  {
    match r
    case Success(w) => g.Got? && g.v == w
    case Failure(e) => g == Bad(e)
  }

  /** A record read from the start of its buffer gives, for each wanted tag, what lookup gives. */
  lemma RecordIsLookup(slots: seq<Slot>, fs: seq<Field>)
    requires FitFields(fs) && Ascending(fs) && OrderedFields(fs)
    requires AscendingSlots(slots) && OrderedSlots(slots)
    ensures SameOutcome(ReadSlots(EncFields(fs), 0, slots), ProjectSlots(slots, fs))
  {
    hide ReadSlots, ProjectSlots, EncFields, Rest;
    WholeBuffer(fs);
    SlotsBack(EncFields(fs), |EncFields(fs)|, slots, fs);
  }

  lemma {:induction false} SameLookupsProjectAlike(slots: seq<Slot>, fs: seq<Field>, gs: seq<Field>)
    requires forall i :: 0 <= i < |slots| ==> Lookup(fs, slots[i].tag) == Lookup(gs, slots[i].tag)
    ensures ProjectSlots(slots, fs) == ProjectSlots(slots, gs)
    decreases |slots|
  {
    hide ProjectSlot, Lookup;
    if slots != [] {
      SameLookupsProjectAlike(slots[1..], fs, gs);
    }
  }

  /** Fields the reader does not know never change what it reads, wherever they stand. */
  lemma UnknownFieldsDoNotMatter(slots: seq<Slot>, fs: seq<Field>, gs: seq<Field>)
    requires FitFields(fs) && Ascending(fs) && OrderedFields(fs)
    requires FitFields(gs) && Ascending(gs) && OrderedFields(gs)
    requires AscendingSlots(slots) && OrderedSlots(slots)
    requires forall i :: 0 <= i < |slots| ==> Lookup(fs, slots[i].tag) == Lookup(gs, slots[i].tag)
    ensures var r, s := ReadSlots(EncFields(fs), 0, slots), ReadSlots(EncFields(gs), 0, slots);
            if r.Bad? then s == r else s.Got? && s.v == r.v
  {
    hide ReadSlots, ProjectSlots, EncFields, Rest, Lookup, Ascending;
    hide FitFields, OrderedFields, AscendingSlots, OrderedSlots;
    RecordIsLookup(slots, fs);
    RecordIsLookup(slots, gs);
    SameLookupsProjectAlike(slots, fs, gs);
  }

  // Round trips.

  predicate InRange(ty: Ty, n: int)
  {
    match ty
    case BoolT => 0 <= n <= 1
    case UInt8T => 0 <= n < 0x100
    case UInt16T => 0 <= n < 0x1_0000
    case UInt32T => 0 <= n < 0x1_0000_0000
    case CharT | ShortT | Int32T | Int64T => FitsSigned(n, ReadWidth(ty))
    case _ => false
  }

  predicate DistinctKeys(es: seq<Entry>)
  {
    forall i, j :: 0 <= i < j < |es| ==> es[i].key != es[j].key
  }

  /** A value of the type: what a writer of that type can hold. */
  predicate Conforms(ty: Ty, v: Value)
    decreases ty, 1, 0
  {
    match ty
    case FloatT => v.FloatV?
    case DoubleT => v.DoubleV?
    case StringT => v.StringV?
    case BytesT => v.BytesV?
    case ListT(elem) => v.ListV? && ConformItems(elem, v.items)
    case MapT(key, val) => v.MapV? && DistinctKeys(v.entries) && ConformEntries(key, val, v.entries)
    case StructT(slots) => v.StructV? && ConformFields(slots, v.fields)
    case _ => v.IntV? && InRange(ty, v.n)
  }

  predicate ConformItems(elem: Ty, items: seq<Value>)
    decreases elem, 2, |items|
  {
    items == [] || (Conforms(elem, items[0]) && ConformItems(elem, items[1..]))
  }

  predicate ConformEntries(key: Ty, val: Ty, es: seq<Entry>)
    decreases MapT(key, val), 0, |es|
  {
    es == [] || (Conforms(key, es[0].key) && Conforms(val, es[0].val) && ConformEntries(key, val, es[1..]))
  }

  predicate ConformField(slot: Slot, f: Field)
    decreases slot, 0, 0
  {
    f.tag == slot.tag && Conforms(slot.ty, f.val)
  }

  predicate ConformFields(slots: seq<Slot>, fs: seq<Field>)
    decreases slots, 0, 0
  {
    |slots| == |fs| && (slots == [] || (ConformField(slots[0], fs[0]) && ConformFields(slots[1..], fs[1..])))
  }

  /** A value of the type is its own projection. */
  lemma {:induction false} ConformsProjects(ty: Ty, v: Value)
    requires Conforms(ty, v) && OrderedTy(ty)
    ensures Project(ty, v) == Success(v)
    decreases ty, 1, 0
  {
    hide ProjectItems, ProjectEntries, ProjectSlots, InsertAll, AscendingSlots, OrderedSlots;
    match ty
    case FloatT =>
    case DoubleT =>
    case StringT =>
    case BytesT =>
    case ListT(elem) => ItemsProject(elem, v.items);
    case MapT(key, val) =>
      EntriesProject(key, val, v.entries);
      InsertDistinct([], v.entries);
      assert [] + v.entries == v.entries;
    case StructT(slots) => FieldsProject(slots, v.fields, v.fields);
    case _ => IntProjects(ty, v);
  }

  lemma IntProjects(ty: Ty, v: Value)
    requires ReadWidth(ty) != 0 && v.IntV? && InRange(ty, v.n)
    ensures ProjectInt(ty, v) == Success(v)
  {
    assert Pow256(1) == 0x100;
    assert Pow256(2) == 0x1_0000;
    assert Pow256(4) == 0x1_0000_0000;
    assert Pow256(8) == 0x1_0000_0000_0000_0000;
  }

  lemma {:induction false} ItemsProject(elem: Ty, items: seq<Value>)
    requires ConformItems(elem, items) && OrderedTy(elem)
    ensures ProjectItems(elem, items) == Success(items)
    decreases elem, 2, |items|
  {
    hide Conforms, Project, OrderedTy;
    if items != [] {
      ConformsProjects(elem, items[0]);
      ItemsProject(elem, items[1..]);
      assert [items[0]] + items[1..] == items;
    }
  }

  lemma {:induction false} EntriesProject(key: Ty, val: Ty, es: seq<Entry>)
    requires ConformEntries(key, val, es) && OrderedTy(key) && OrderedTy(val)
    ensures ProjectEntries(key, val, es) == Success(es)
    decreases MapT(key, val), 0, |es|
  {
    hide Conforms, Project, OrderedTy;
    if es != [] {
      ConformsProjects(key, es[0].key);
      ConformsProjects(val, es[0].val);
      EntriesProject(key, val, es[1..]);
      assert [es[0]] + es[1..] == es;
    }
  }

  lemma {:induction false} InsertDistinct(m: seq<Entry>, es: seq<Entry>)
    requires DistinctKeys(m + es)
    ensures InsertAll(m, es) == m + es
    decreases |es|
  {
    if es == [] {
      assert m + es == m;
    } else {
      forall i | 0 <= i < |m|
        ensures m[i].key != es[0].key
      {
        assert (m + es)[i] == m[i] && (m + es)[|m|] == es[0];
      }
      assert m + [es[0]] + es[1..] == m + es;
      InsertDistinct(m + [es[0]], es[1..]);
    }
  }

  /** Each field of a conforming record is found under its own slot's tag. */
  lemma {:induction false} FieldsProject(slots: seq<Slot>, fs: seq<Field>, record: seq<Field>)
    requires ConformFields(slots, fs) && AscendingSlots(slots) && OrderedSlots(slots)
    requires |fs| <= |record| && fs == record[|record| - |fs|..]
    requires forall i, j :: 0 <= i < |record| - |fs| <= j < |record| ==> record[i].tag < record[j].tag
    ensures ProjectSlots(slots, record) == Success(fs)
    decreases slots, 0, 0
  {
    hide ConformField, ProjectSlot, OrderedSlot;
    if slots != [] {
      LookupAt(record, |record| - |fs|);
      FieldProjects(slots[0], fs[0]);
      TagsRise(slots, fs);
      assert fs[1..] == record[|record| - |fs[1..]|..];
      FieldsProject(slots[1..], fs[1..], record);
      assert [fs[0]] + fs[1..] == fs;
    }
  }

  lemma {:induction false} FieldProjects(slot: Slot, f: Field)
    requires ConformField(slot, f) && OrderedSlot(slot)
    ensures ProjectSlot(slot, Some(f.val)) == Success(f)
    decreases slot, 0, 0
  {
    hide Conforms, Project, OrderedTy;
    ConformsProjects(slot.ty, f.val);
  }

  lemma {:induction false} LookupAt(record: seq<Field>, k: nat)
    requires k < |record| && forall i :: 0 <= i < k ==> record[i].tag < record[k].tag
    ensures Lookup(record, record[k].tag) == Some(record[k].val)
    decreases k
  {
    if k > 0 {
      assert record[1..][k - 1] == record[k];
      LookupAt(record[1..], k - 1);
    }
  }

  lemma {:induction false} TagsRise(slots: seq<Slot>, fs: seq<Field>)
    requires ConformFields(slots, fs) && AscendingSlots(slots)
    ensures forall i :: 0 <= i < |fs| ==> fs[i].tag == slots[i].tag
    ensures Ascending(fs)
    decreases |slots|
  {
    hide Conforms;
    if slots != [] {
      TagsRise(slots[1..], fs[1..]);
      forall i | 0 <= i < |fs|
        ensures fs[i].tag == slots[i].tag
      {
        if i > 0 {
          assert fs[i] == fs[1..][i - 1] && slots[i] == slots[1..][i - 1];
        }
      }
    }
  }

  /** A written value, read back at its own type, is the same value, and the cursor stands at its end. */
  lemma RoundTrip(buf: seq<byte>, cur: nat, ty: Ty, v: Value, tag: byte)
    requires Fits(v) && Ordered(v) && OrderedTy(ty) && Conforms(ty, v)
    requires At(buf, cur, Enc(v, tag))
    ensures ReadRequired(buf, cur, ty, tag) == Got(v, cur + |Enc(v, tag)|)
  {
    hide ReadRequired, Project, Enc, Fits, Ordered, OrderedTy, Conforms;
    ReadsBack(buf, cur, ty, v, tag);
    ConformsProjects(ty, v);
  }

  /** The same for a record read by its own readFrom. */
  lemma RecordRoundTrip(slots: seq<Slot>, fs: seq<Field>)
    requires FitFields(fs) && OrderedFields(fs) && AscendingSlots(slots) && OrderedSlots(slots)
    requires ConformFields(slots, fs)
    ensures ReadSlots(EncFields(fs), 0, slots).Got? && ReadSlots(EncFields(fs), 0, slots).v == fs
  {
    hide ReadSlots, ProjectSlots, EncFields, Rest, ConformFields;
    TagsRise(slots, fs);
    RecordIsLookup(slots, fs);
    FieldsProject(slots, fs, fs);
  }

  /** Bytes of an unsigned type, which is half of what it is read through. */
  function UnsignedWidth(ty: Ty): nat
  {
    match ty
    case UInt8T => 1
    case UInt16T => 2
    case UInt32T => 4
    case _ => 0
  }

  /** The cast back from the signed type lands in range, changes no number that was in range, and takes the
      remainder for an unsigned type. */
  lemma CastLands(ty: Ty, n: int)
    requires ReadWidth(ty) != 0 && FitsSigned(n, ReadWidth(ty))
    ensures InRange(ty, Cast(ty, n)) && (InRange(ty, n) ==> Cast(ty, n) == n)
    ensures UnsignedWidth(ty) > 0 ==> Cast(ty, n) == n % Pow256(UnsignedWidth(ty))
    ensures ty == BoolT ==> (Cast(ty, n) == 0 <==> n == 0)
  {
    assert Pow256(1) == 0x100;
    assert Pow256(2) == 0x1_0000;
    assert Pow256(4) == 0x1_0000_0000;
  }

  /** Whatever the bytes, a number read is one its type can hold. */
  lemma NumbersAreInRange(buf: seq<byte>, cur: nat, ty: Ty, kind: Kind)
    requires ReadWidth(ty) != 0
    ensures var g := ReadInteger(buf, cur, ty, kind);
            g.Got? ==> g.v.IntV? && InRange(ty, g.v.n) && cur <= g.cur
  {
    hide ReadIntBody, Cast, InRange, FitsSigned, ReadWidth;
    var r := ReadIntBody(buf, cur, kind, ReadWidth(ty));
    if r.Done? {
      CastLands(ty, r.v);
    }
  }

  // Maps: the order of the entries does not matter, and of equal keys the first one counts.

  /** The finite map an entry list stands for, the first of equal keys counting. */
  function AsMap(es: seq<Entry>): map<Value, Value>
    decreases |es|
  {
    if es == [] then map[] else AsMap(es[1..])[es[0].key := es[0].val]
  }

  lemma {:induction false} AsMapAppend(m: seq<Entry>, e: Entry)
    ensures AsMap(m + [e]) == if e.key in AsMap(m) then AsMap(m) else AsMap(m)[e.key := e.val]
    decreases |m|
  {
    if m == [] {
      assert m + [e] == [e] && [e][1..] == [];
    } else {
      assert (m + [e])[1..] == m[1..] + [e];
      AsMapAppend(m[1..], e);
    }
  }

  lemma {:induction false} AsMapKeys(m: seq<Entry>, k: Value)
    ensures k in AsMap(m) <==> exists i :: 0 <= i < |m| && m[i].key == k
    decreases |m|
  {
    if m != [] {
      AsMapKeys(m[1..], k);
      if exists i :: 0 <= i < |m| && m[i].key == k {
        var i :| 0 <= i < |m| && m[i].key == k;
        if i > 0 {
          assert m[1..][i - 1].key == k;
        }
      }
      if exists i :: 0 <= i < |m[1..]| && m[1..][i].key == k {
        var i :| 0 <= i < |m[1..]| && m[1..][i].key == k;
        assert m[i + 1].key == k;
      }
    }
  }

  /** Inserting entries one by one keeps the first of equal keys. */
  lemma {:induction false} InsertKeepsFirst(m: seq<Entry>, es: seq<Entry>)
    ensures AsMap(InsertAll(m, es)) == AsMap(m + es)
    decreases |es|
  {
    hide AsMap, Insert, InsertAll;
    InsertAllStep(m, es);
    if es == [] {
      assert m + es == m;
    } else {
      var e := es[0];
      InsertKeepsFirst(Insert(m, e), es[1..]);
      InsertIsAppend(m, e);
      AsMapPrefix(Insert(m, e), m + [e], es[1..]);
      assert m + [e] + es[1..] == m + es;
    }
  }

  lemma InsertAllStep(m: seq<Entry>, es: seq<Entry>)
    ensures InsertAll(m, es) == if es == [] then m else InsertAll(Insert(m, es[0]), es[1..])
  {
    hide Insert;
  }

  /** And it keeps keys distinct, as a map's are. */
  lemma {:induction false} InsertKeepsDistinct(m: seq<Entry>, es: seq<Entry>)
    requires DistinctKeys(m)
    ensures DistinctKeys(InsertAll(m, es))
    decreases |es|
  {
    if es != [] {
      InsertKeepsDistinct(Insert(m, es[0]), es[1..]);
    }
  }

  lemma InsertIsAppend(m: seq<Entry>, e: Entry)
    ensures AsMap(Insert(m, e)) == AsMap(m + [e])
  {
    hide AsMap;
    AsMapAppend(m, e);
    AsMapKeys(m, e.key);
  }

  lemma {:induction false} AsMapPrefix(m: seq<Entry>, n: seq<Entry>, es: seq<Entry>)
    requires AsMap(m) == AsMap(n)
    ensures AsMap(m + es) == AsMap(n + es)
    decreases |es|
  {
    if es == [] {
      assert m + es == m && n + es == n;
    } else {
      AsMapAppend(m, es[0]);
      AsMapAppend(n, es[0]);
      AsMapPrefix(m + [es[0]], n + [es[0]], es[1..]);
      assert m + [es[0]] + es[1..] == m + es;
      assert n + [es[0]] + es[1..] == n + es;
    }
  }

  lemma {:induction false} AsMapMembers(es: seq<Entry>, k: Value, x: Value)
    requires DistinctKeys(es)
    ensures (k in AsMap(es) && AsMap(es)[k] == x) <==> Entry(k, x) in es
    decreases |es|
  {
    if es != [] {
      AsMapMembers(es[1..], k, x);
      AsMapKeys(es[1..], es[0].key);
    }
  }

  // A permutation of entries: what holds of the one order holds of the other.

  lemma {:induction false} EachFits(es: seq<Entry>)
    ensures FitEntries(es) <==> forall e :: e in es ==> FitsEntry(e)
    ensures OrderedEntries(es) <==> forall e :: e in es ==> OrderedEntry(e)
    decreases |es|
  {
    hide FitsEntry, OrderedEntry;
    if es != [] {
      EachFits(es[1..]);
      assert es[0] in es && forall e :: e in es[1..] ==> e in es;
      assert forall e :: e in es ==> e == es[0] || e in es[1..];
      assert FitEntries(es) <==> FitsEntry(es[0]) && FitEntries(es[1..]);
      assert OrderedEntries(es) <==> OrderedEntry(es[0]) && OrderedEntries(es[1..]);
    }
  }

  lemma {:induction false} ProjectJoined(key: Ty, val: Ty, es: seq<Entry>, fs: seq<Entry>)
    ensures var p, q := ProjectEntries(key, val, es), ProjectEntries(key, val, fs);
            var r := ProjectEntries(key, val, es + fs);
            && (r.Success? <==> p.Success? && q.Success?)
            && (r.Success? ==> r.v == p.v + q.v)
    decreases |es|
  {
    hide ProjectEntry;
    if es == [] {
      assert es + fs == fs;
    } else {
      assert (es + fs)[1..] == es[1..] + fs;
      ProjectJoined(key, val, es[1..], fs);
    }
  }

  /** The first entry of the one order, found and taken out of the other. */
  lemma Without(es: seq<Entry>, fs: seq<Entry>) returns (a: seq<Entry>, b: seq<Entry>)
    requires es != [] && multiset(es) == multiset(fs)
    ensures es == [es[0]] + es[1..] && fs == a + ([es[0]] + b)
    ensures multiset(es[1..]) == multiset(a + b)
  {
    var e := es[0];
    assert es == [e] + es[1..] && e in multiset(fs);
    var j :| 0 <= j < |fs| && fs[j] == e;
    a, b := fs[..j], fs[j + 1..];
    assert fs == a + ([e] + b);
    SameRest(e, es[1..], a, b);
  }

  lemma SameRest(e: Entry, rest: seq<Entry>, a: seq<Entry>, b: seq<Entry>)
    requires multiset([e] + rest) == multiset(a + ([e] + b))
    ensures multiset(rest) == multiset(a + b)
  {
    assert multiset([e] + rest) == multiset{e} + multiset(rest);
    assert multiset(a + ([e] + b)) == multiset(a) + (multiset{e} + multiset(b));
    assert multiset(rest) == multiset([e] + rest) - multiset{e};
    assert multiset(a + b) == multiset(a) + multiset(b) == multiset(a + ([e] + b)) - multiset{e};
  }

  lemma ProjectMoved(key: Ty, val: Ty, a: seq<Entry>, e: Entry, b: seq<Entry>)
    ensures var p, q := ProjectEntries(key, val, [e] + (a + b)), ProjectEntries(key, val, a + ([e] + b));
            && (p.Success? <==> q.Success?)
            && (p.Success? ==> multiset(p.v) == multiset(q.v))
  {
    hide ProjectEntries;
    ProjectJoined(key, val, [e], a + b);
    ProjectJoined(key, val, a, b);
    ProjectJoined(key, val, a, [e] + b);
    ProjectJoined(key, val, [e], b);
  }

  lemma ProjectSecond(key: Ty, val: Ty, e: Entry, es: seq<Entry>, fs: seq<Entry>)
    requires ProjectEntries(key, val, [e] + es).Success?
    requires ProjectEntries(key, val, es).Success? ==>
               ProjectEntries(key, val, fs).Success? &&
               multiset(ProjectEntries(key, val, fs).v) == multiset(ProjectEntries(key, val, es).v)
    ensures ProjectEntries(key, val, es).Success? && ProjectEntries(key, val, [e] + fs).Success?
    ensures multiset(ProjectEntries(key, val, [e] + fs).v) == multiset(ProjectEntries(key, val, [e] + es).v)
  {
    hide ProjectEntries;
    ProjectJoined(key, val, [e], es);
    ProjectJoined(key, val, [e], fs);
  }

  /** Entries in another order are converted to the same entries in another order. */
  lemma {:induction false} ProjectPermuted(key: Ty, val: Ty, es: seq<Entry>, fs: seq<Entry>)
    requires multiset(es) == multiset(fs) && ProjectEntries(key, val, es).Success?
    ensures ProjectEntries(key, val, fs).Success?
    ensures multiset(ProjectEntries(key, val, fs).v) == multiset(ProjectEntries(key, val, es).v)
    decreases |es|
  {
    hide ProjectEntries;
    if es == [] {
      assert fs == [] by { assert |multiset(fs)| == |fs|; }
    } else {
      var a, b := Without(es, fs);
      ProjectJoined(key, val, [es[0]], es[1..]);
      ProjectPermuted(key, val, es[1..], a + b);
      ProjectSecond(key, val, es[0], es[1..], a + b);
      ProjectMoved(key, val, a, es[0], b);
    }
  }

  lemma AtTwoPlaces(s: seq<Entry>, i: nat, j: nat)
    requires i < j < |s| && s[i] == s[j]
    ensures multiset(s)[s[i]] >= 2
  {
    assert s == s[..j] + [s[j]] + s[j + 1..];
    assert s[..j][i] == s[i];
  }

  lemma TwoPlaces(s: seq<Entry>, e: Entry) returns (i: nat, j: nat)
    requires multiset(s)[e] >= 2
    ensures i < j < |s| && s[i] == e && s[j] == e
  {
    i :| 0 <= i < |s| && s[i] == e;
    var rest := s[..i] + s[i + 1..];
    assert s == s[..i] + [s[i]] + s[i + 1..];
    assert multiset(s) == multiset(rest) + multiset{e};
    var k :| 0 <= k < |rest| && rest[k] == e;
    if k < i {
      i, j := k, i;
    } else {
      j := k + 1;
    }
  }

  /** Distinct keys stay distinct in another order. */
  lemma DistinctPermuted(ws: seq<Entry>, xs: seq<Entry>)
    requires multiset(ws) == multiset(xs) && DistinctKeys(ws)
    ensures DistinctKeys(xs)
  {
    forall i, j | 0 <= i < j < |xs|
      ensures xs[i].key != xs[j].key
    {
      if xs[i] == xs[j] {
        AtTwoPlaces(xs, i, j);
        var k, l := TwoPlaces(ws, xs[i]);
      } else {
        assert xs[i] in multiset(ws) && xs[j] in multiset(ws);
        var k :| 0 <= k < |ws| && ws[k] == xs[i];
        var l :| 0 <= l < |ws| && ws[l] == xs[j];
        assert if k < l then ws[k].key != ws[l].key else ws[l].key != ws[k].key;
      }
    }
  }

  lemma FitsPermuted(es: seq<Entry>, fs: seq<Entry>)
    requires multiset(es) == multiset(fs) && Fits(MapV(es)) && Ordered(MapV(es))
    ensures Fits(MapV(fs)) && Ordered(MapV(fs))
  {
    hide FitEntries, OrderedEntries, FitsEntry, OrderedEntry;
    EachFits(es);
    EachFits(fs);
    assert |multiset(es)| == |es| && |multiset(fs)| == |fs|;
    assert forall e :: e in fs ==> e in multiset(es);
  }

  /** Two writers sending the same entries in different orders are read as the same map. */
  lemma MapOrderDoesNotMatter(buf: seq<byte>, cur: nat, buf': seq<byte>, cur': nat,
                              key: Ty, val: Ty, es: seq<Entry>, fs: seq<Entry>, tag: byte)
    requires Fits(MapV(es)) && Ordered(MapV(es)) && OrderedTy(MapT(key, val)) && multiset(es) == multiset(fs)
    requires At(buf, cur, Enc(MapV(es), tag)) && At(buf', cur', Enc(MapV(fs), tag))
    requires ProjectEntries(key, val, es).Success? && DistinctKeys(ProjectEntries(key, val, es).v)
    ensures var r, s := ReadRequired(buf, cur, MapT(key, val), tag), ReadRequired(buf', cur', MapT(key, val), tag);
            && r.Got? && r.v.MapV? && s.Got? && s.v.MapV?
            && AsMap(r.v.entries) == AsMap(s.v.entries)
  {
    hide ReadRequired, Project, Enc, Fits, Ordered, OrderedTy, ProjectEntries, AsMap, DistinctKeys;
    FitsPermuted(es, fs);
    ProjectPermuted(key, val, es, fs);
    DistinctPermuted(ProjectEntries(key, val, es).v, ProjectEntries(key, val, fs).v);
    ReadsBack(buf, cur, MapT(key, val), MapV(es), tag);
    ReadsBack(buf', cur', MapT(key, val), MapV(fs), tag);
    SameEntriesProjectAlike(key, val, es, fs);
  }

  lemma SameEntriesProjectAlike(key: Ty, val: Ty, es: seq<Entry>, fs: seq<Entry>)
    requires ProjectEntries(key, val, es).Success? && ProjectEntries(key, val, fs).Success?
    requires multiset(ProjectEntries(key, val, es).v) == multiset(ProjectEntries(key, val, fs).v)
    requires DistinctKeys(ProjectEntries(key, val, es).v) && DistinctKeys(ProjectEntries(key, val, fs).v)
    ensures Project(MapT(key, val), MapV(es)).Success? && Project(MapT(key, val), MapV(fs)).Success?
    ensures var m, n := Project(MapT(key, val), MapV(es)).v, Project(MapT(key, val), MapV(fs)).v;
            m.MapV? && n.MapV? && AsMap(m.entries) == AsMap(n.entries)
  {
    hide ProjectEntries, Project, AsMap, DistinctKeys;
    SameCountsSameMembers(ProjectEntries(key, val, es).v, ProjectEntries(key, val, fs).v);
    SameMembersSameMap(ProjectEntries(key, val, es).v, ProjectEntries(key, val, fs).v);
    MapIsItsEntries(key, val, es);
    MapIsItsEntries(key, val, fs);
  }

  lemma SameCountsSameMembers(ws: seq<Entry>, xs: seq<Entry>)
    requires multiset(ws) == multiset(xs)
    ensures forall w: Entry :: w in ws <==> w in xs
  {
    forall w: Entry
      ensures w in ws <==> w in xs
    {
      assert w in ws <==> w in multiset(ws);
      assert w in xs <==> w in multiset(xs);
    }
  }

  /** The map read from entries is the map of what they convert to. */
  lemma MapIsItsEntries(key: Ty, val: Ty, es: seq<Entry>)
    requires ProjectEntries(key, val, es).Success?
    ensures var m := Project(MapT(key, val), MapV(es));
            m.Success? && m.v.MapV? && AsMap(m.v.entries) == AsMap(ProjectEntries(key, val, es).v)
  {
    hide ProjectEntries, AsMap, InsertAll;
    var ws := ProjectEntries(key, val, es).v;
    InsertKeepsFirst([], ws);
    assert [] + ws == ws;
  }

  lemma SameMembersSameMap(ws: seq<Entry>, xs: seq<Entry>)
    requires DistinctKeys(ws) && DistinctKeys(xs)
    requires forall w: Entry :: w in ws <==> w in xs
    ensures AsMap(ws) == AsMap(xs)
  {
    hide AsMap, DistinctKeys;
    var m, n := AsMap(ws), AsMap(xs);
    forall k | k in m
      ensures k in n && m[k] == n[k]
    {
      AsMapMembers(ws, k, m[k]);
      AsMapMembers(xs, k, m[k]);
    }
    forall k | k in n
      ensures k in m
    {
      AsMapMembers(xs, k, n[k]);
      AsMapMembers(ws, k, n[k]);
    }
  }

  /** The map a reader gets keeps the first of entries with equal keys. */
  lemma MapKeepsFirst(buf: seq<byte>, cur: nat, key: Ty, val: Ty, es: seq<Entry>, tag: byte)
    requires Fits(MapV(es)) && Ordered(MapV(es)) && OrderedTy(MapT(key, val))
    requires At(buf, cur, Enc(MapV(es), tag)) && ProjectEntries(key, val, es).Success?
    ensures var r := ReadRequired(buf, cur, MapT(key, val), tag);
            && r.Got? && r.v.MapV? && DistinctKeys(r.v.entries)
            && AsMap(r.v.entries) == AsMap(ProjectEntries(key, val, es).v)
  {
    hide ReadRequired, ProjectEntries, Enc, Fits, Ordered, OrderedTy, InsertAll, AsMap, DistinctKeys;
    NoEntries();
    ReadsBack(buf, cur, MapT(key, val), MapV(es), tag);
    var ws := ProjectEntries(key, val, es).v;
    InsertKeepsFirst([], ws);
    InsertKeepsDistinct([], ws);
    assert [] + ws == ws;
  }

  lemma NoEntries()
    ensures DistinctKeys([])
  {
  }

  // Byte vectors: SimpleList and List forms decode alike.

  function CharOf(b: byte): int
  {
    if b < 128 then b else b - 256
  }

  /** The same bytes as a list of Chars. */
  function CharList(b: seq<byte>): (items: seq<Value>)
    ensures |items| == |b|
  {
    if b == [] then [] else [IntV(CharOf(b[0]))] + CharList(b[1..])
  }

  lemma {:induction false} CharListProjects(b: seq<byte>)
    ensures ProjectChars(CharList(b)) == Success(b)
    ensures FitItems(CharList(b)) && OrderedItems(CharList(b))
  {
    if b != [] {
      assert Pow256(1) == 256 && Pow256(8) == 0x1_0000_0000_0000_0000;
      CharListProjects(b[1..]);
      assert CharList(b)[1..] == CharList(b[1..]);
      assert b == [b[0]] + b[1..];
    }
  }

  lemma BytesFormDoesNotMatter(buf: seq<byte>, cur: nat, buf': seq<byte>, cur': nat, b: seq<byte>, tag: byte)
    requires |b| < 0x8000_0000
    requires At(buf, cur, Enc(BytesV(b), tag)) && At(buf', cur', Enc(ListV(CharList(b)), tag))
    ensures ReadRequired(buf, cur, BytesT, tag) == Got(BytesV(b), cur + |Enc(BytesV(b), tag)|)
    ensures ReadRequired(buf', cur', BytesT, tag) == Got(BytesV(b), cur' + |Enc(ListV(CharList(b)), tag)|)
  {
    hide ReadRequired, Enc, CharList, ProjectChars, FitItems, OrderedItems;
    CharListProjects(b);
    ReadsBack(buf, cur, BytesT, BytesV(b), tag);
    ReadsBack(buf', cur', BytesT, ListV(CharList(b)), tag);
  }
}
