/** Reading by type on arbitrary bytes: the cursor never moves back, every element that is read has passed a
    byte, and the heads peeked are linear in the bytes, whatever counts the bytes claim. */
module JceProgress {
  import opened Bytes
  import opened JceValue
  import opened JceReader
  import opened JceSchema
  import opened JceDecoding

  /** A read that went well moved on and passed at least n bytes of the buffer. */
  predicate Paid<T>(buf: seq<byte>, cur: nat, g: Got<T>, n: nat)
  {
    g.Got? ==> cur <= g.cur && n <= Passed(buf, cur, g.cur)
  }

  lemma {:induction false} ReadPays(buf: seq<byte>, cur: nat, ty: Ty, tag: byte)
    ensures Paid(buf, cur, Read(buf, cur, ty, tag), 0)
    ensures var g := Read(buf, cur, ty, tag); g.Got? && g.v.Some? ==> Paid(buf, cur, g, 1)
    decreases ty, 2, 0
  {
    hide SkipToTag, PeekHead, ReadBody;
    var s := SkipToTag(buf, cur, tag);
    if s.found {
      var h := ReadHead(buf, s.cur);
      BodyPays(buf, h.cur, ty, h.v.kind);
    }
  }

  lemma {:induction false} RequiredPays(buf: seq<byte>, cur: nat, ty: Ty, tag: byte)
    ensures Paid(buf, cur, ReadRequired(buf, cur, ty, tag), 1)
    decreases ty, 3, 0
  {
    hide Read;
    ReadPays(buf, cur, ty, tag);
  }

  lemma {:induction false} BodyPays(buf: seq<byte>, cur: nat, ty: Ty, kind: Kind)
    ensures Paid(buf, cur, ReadBody(buf, cur, ty, kind), 0)
    decreases ty, 1, 0
  {
    hide ReadItems, ReadEntries, ReadSlots, ReadSize, SkipToStructEnd, ReadBytes, ReadString, ReadIntBody, Cast, Unwire;
    SizePays(buf, cur);
    match ty
    case FloatT =>
    case DoubleT =>
    case StringT => StringPays(buf, cur, kind);
    case BytesT => BytesPays(buf, cur, kind);
    case ListT(elem) =>
      if ReadSize(buf, cur).Got? {
        ItemsPay(buf, ReadSize(buf, cur).cur, elem, ReadSize(buf, cur).v, []);
      }
    case MapT(key, val) =>
      if ReadSize(buf, cur).Got? {
        EntriesPay(buf, ReadSize(buf, cur).cur, key, val, ReadSize(buf, cur).v, []);
      }
    case StructT(slots) => SlotsPay(buf, cur, slots);
    case _ =>
  }

  lemma SizePays(buf: seq<byte>, cur: nat)
    ensures Paid(buf, cur, ReadSize(buf, cur), 1)
  {
    hide ReadInt, Pow256;
  }

  lemma StringPays(buf: seq<byte>, cur: nat, kind: Kind)
    ensures Paid(buf, cur, ReadString(buf, cur, kind), 0)
  {
    hide Unwire;
  }

  lemma BytesPays(buf: seq<byte>, cur: nat, kind: Kind)
    ensures Paid(buf, cur, ReadBytes(buf, cur, kind), 0)
  {
    hide ReadSize, PeekHead, ReadCharItems;
    SizePays(buf, cur);
    var h := ReadHead(buf, cur);
    if kind == SIMPLE_LIST && h.Done? {
      SizePays(buf, h.cur);
    }
    if ReadSize(buf, cur).Got? {
      CharItemsPay(buf, ReadSize(buf, cur).cur, ReadSize(buf, cur).v, []);
    }
  }

  lemma {:induction false} CharItemsPay(buf: seq<byte>, cur: nat, n: nat, acc: seq<byte>)
    ensures Paid(buf, cur, ReadCharItems(buf, cur, n, acc), n)
    decreases n
  {
    hide ReadInt;
    if n > 0 {
      var r := ReadInt(buf, cur, 1, 0);
      if r.Done? && r.v.Some? {
        CharItemsPay(buf, r.cur, n - 1, acc + [Unsigned(r.v.value, 1)]);
      }
    }
  }

  /** A vector of n elements passed at least n bytes. */
  lemma {:induction false} ItemsPay(buf: seq<byte>, cur: nat, elem: Ty, n: nat, acc: seq<Value>)
    ensures Paid(buf, cur, ReadItems(buf, cur, elem, n, acc), n)
    decreases elem, 4, n
  {
    hide ReadRequired;
    if n > 0 {
      RequiredPays(buf, cur, elem, 0);
      var g := ReadRequired(buf, cur, elem, 0);
      if g.Got? {
        ItemsPay(buf, g.cur, elem, n - 1, acc + [g.v]);
      }
    }
  }

  /** A map read in n turns passed at least two bytes a turn. */
  lemma {:induction false} EntriesPay(buf: seq<byte>, cur: nat, key: Ty, val: Ty, n: nat, acc: seq<Entry>)
    ensures Paid(buf, cur, ReadEntries(buf, cur, key, val, n, acc), 2 * n)
    decreases MapT(key, val), 0, n
  {
    hide ReadRequired, Insert;
    if n > 0 {
      RequiredPays(buf, cur, key, 0);
      var k := ReadRequired(buf, cur, key, 0);
      if k.Got? {
        RequiredPays(buf, k.cur, val, 1);
        var x := ReadRequired(buf, k.cur, val, 1);
        if x.Got? {
          EntriesPay(buf, x.cur, key, val, n - 1, Insert(acc, Entry(k.v, x.v)));
        }
      }
    }
  }

  lemma {:induction false} SlotPays(buf: seq<byte>, cur: nat, slot: Slot)
    ensures Paid(buf, cur, ReadSlot(buf, cur, slot), 0)
    decreases slot, 0, 0
  {
    hide Read;
    ReadPays(buf, cur, slot.ty, slot.tag);
  }

  lemma {:induction false} SlotsPay(buf: seq<byte>, cur: nat, slots: seq<Slot>)
    ensures Paid(buf, cur, ReadSlots(buf, cur, slots), 0)
    decreases slots, 0, 0
  {
    hide ReadSlot;
    if slots != [] {
      SlotPays(buf, cur, slots[0]);
      var g := ReadSlot(buf, cur, slots[0]);
      if g.Got? {
        SlotsPay(buf, g.cur, slots[1..]);
      }
    }
  }

  // Heads peeked.

  function SizePeeks(buf: seq<byte>, cur: nat): nat
  {
    ReadInt(buf, cur, 8, 0).peeks
  }

  /** Heads peeked by a read at a type, also when it throws. */
  function ReadPeeks(buf: seq<byte>, cur: nat, ty: Ty, tag: byte): nat
    decreases ty, 2, 0
  {
    var s := SkipToTag(buf, cur, tag);
    if !s.found then s.peeks
    else
      var h := ReadHead(buf, s.cur);
      s.peeks + 1 + BodyPeeks(buf, h.cur, ty, h.v.kind)
  }

  /** The same after the head. */
  function BodyPeeks(buf: seq<byte>, cur: nat, ty: Ty, kind: Kind): nat
    decreases ty, 1, 0
  {
    match ty
    case BytesT => BytesPeeks(buf, cur, kind)
    case ListT(elem) =>
      if kind != LIST then 0
      else (
        match ReadSize(buf, cur)
        case Bad(_) => SizePeeks(buf, cur)
        case Got(n, c) => SizePeeks(buf, cur) + if n > |buf| then 0 else ItemsPeeks(buf, c, elem, n)
      )
    case MapT(key, val) =>
      if kind != MAP then 0
      else (
        match ReadSize(buf, cur)
        case Bad(_) => SizePeeks(buf, cur)
        case Got(n, c) => SizePeeks(buf, cur) + if n > |buf| then 0 else EntriesPeeks(buf, c, key, val, n)
      )
    case StructT(slots) =>
      if kind != STRUCT_BEGIN then 0
      else (
        match ReadSlots(buf, cur, slots)
        case Bad(_) => SlotsPeeks(buf, cur, slots)
        case Got(_, c) => SlotsPeeks(buf, cur, slots) + SkipToStructEnd(buf, c).peeks
      )
    case _ => 0
  }

  /** The body of a list is its size and then its elements. */
  lemma ListBody(buf: seq<byte>, cur: nat, elem: Ty, kind: Kind)
    ensures var g, p := ReadBody(buf, cur, ListT(elem), kind), BodyPeeks(buf, cur, ListT(elem), kind);
            var n := ReadSize(buf, cur);
            if kind != LIST then g == Bad(Mismatch) && p == 0
            else if n.Bad? then g == Bad(n.e) && p == SizePeeks(buf, cur)
            else if n.v > |buf| then g == Bad(InvalidValue) && p == SizePeeks(buf, cur)
            else g == ReadItems(buf, n.cur, elem, n.v, []) &&
                 p == SizePeeks(buf, cur) + ItemsPeeks(buf, n.cur, elem, n.v)
  {
    hide ReadSize, ReadItems, SizePeeks, ItemsPeeks;
  }

  lemma MapBody(buf: seq<byte>, cur: nat, key: Ty, val: Ty, kind: Kind)
    ensures var g, p := ReadBody(buf, cur, MapT(key, val), kind), BodyPeeks(buf, cur, MapT(key, val), kind);
            var n := ReadSize(buf, cur);
            if kind != MAP then g == Bad(Mismatch) && p == 0
            else if n.Bad? then g == Bad(n.e) && p == SizePeeks(buf, cur)
            else if n.v > |buf| then g == Bad(InvalidValue) && p == SizePeeks(buf, cur)
            else g == ReadEntries(buf, n.cur, key, val, n.v, []) &&
                 p == SizePeeks(buf, cur) + EntriesPeeks(buf, n.cur, key, val, n.v)
  {
    hide ReadSize, ReadEntries, SizePeeks, EntriesPeeks;
  }

  function BytesPeeks(buf: seq<byte>, cur: nat, kind: Kind): nat
  {
    if kind == SIMPLE_LIST then (
      var h := ReadHead(buf, cur);
      if h.Raised? || h.v.kind != CHAR then h.peeks else h.peeks + SizePeeks(buf, h.cur)
    ) else if kind == LIST then (
      match ReadSize(buf, cur)
      case Bad(_) => SizePeeks(buf, cur)
      case Got(n, c) => SizePeeks(buf, cur) + if n > |buf| then 0 else CharsPeeks(buf, c, n)
    ) else 0
  }

  function CharsPeeks(buf: seq<byte>, cur: nat, n: nat): nat
    decreases n
  {
    if n == 0 then 0
    else
      var r := ReadInt(buf, cur, 1, 0);
      r.peeks + if r.Done? && r.v.Some? then CharsPeeks(buf, r.cur, n - 1) else 0
  }

  function ItemsPeeks(buf: seq<byte>, cur: nat, elem: Ty, n: nat): nat
    decreases elem, 4, n
  {
    if n == 0 then 0
    else
      var g := ReadRequired(buf, cur, elem, 0);
      ReadPeeks(buf, cur, elem, 0) + if g.Got? then ItemsPeeks(buf, g.cur, elem, n - 1) else 0
  }

  function EntriesPeeks(buf: seq<byte>, cur: nat, key: Ty, val: Ty, n: nat): nat
    decreases MapT(key, val), 0, n
  {
    if n == 0 then 0
    else
      var k := ReadRequired(buf, cur, key, 0);
      ReadPeeks(buf, cur, key, 0) +
      if k.Bad? then 0
      else
        var x := ReadRequired(buf, k.cur, val, 1);
        ReadPeeks(buf, k.cur, val, 1) + if x.Got? then EntriesPeeks(buf, x.cur, key, val, n - 1) else 0
  }

  function SlotPeeks(buf: seq<byte>, cur: nat, slot: Slot): nat
    decreases slot, 0, 0
  {
    ReadPeeks(buf, cur, slot.ty, slot.tag)
  }

  function SlotsPeeks(buf: seq<byte>, cur: nat, slots: seq<Slot>): nat
    decreases slots, 0, 0
  {
    if slots == [] then 0
    else
      var g := ReadSlot(buf, cur, slots[0]);
      SlotPeeks(buf, cur, slots[0]) + if g.Got? then SlotsPeeks(buf, g.cur, slots[1..]) else 0
  }

  /** Heads a byte may cost at a type: the reads asked for, all told. */
  function Weight(ty: Ty): (w: nat)
    ensures w >= 4
  {
    match ty
    case ListT(elem) => 4 + Weight(elem)
    case MapT(key, val) => 4 + Weight(key) + Weight(val)
    case StructT(slots) => 4 + SlotsWeight(slots)
    case _ => 4
  }

  function SlotWeight(slot: Slot): (w: nat)
    ensures w >= 6
  {
    2 + Weight(slot.ty)
  }

  function SlotsWeight(slots: seq<Slot>): nat
  {
    if slots == [] then 0 else SlotWeight(slots[0]) + SlotsWeight(slots[1..])
  }

  function Cost(w: nat, bytes: nat): nat
  {
    w * bytes
  }

  lemma CostAdds(w: nat, a: nat, b: nat)
    ensures Cost(w, a + b) == Cost(w, a) + Cost(w, b)
  {
  }

  lemma CostGrows(v: nat, w: nat, a: nat, b: nat)
    requires v <= w && a <= b
    ensures Cost(v, a) <= Cost(w, b)
  {
    assert v * a <= w * a <= w * b;
  }

  lemma CostOfTwo(w: nat, a: nat)
    requires w >= 2
    ensures 2 * a <= Cost(w, a)
  {
    CostGrows(2, w, a, a);
  }

  /** At most w heads a byte, of those passed or, after an exception, of those that were left; and some. */
  predicate Within<T>(buf: seq<byte>, cur: nat, g: Got<T>, peeks: nat, w: nat, more: nat)
  {
    match g
    case Got(_, c) => cur <= c && peeks <= Cost(w, Left(buf, cur) - Left(buf, c)) + more
    case Bad(_) => peeks <= Cost(w, Left(buf, cur)) + more
  }

  /** A part that went well and cost no more than it passed, and then the rest. */
  lemma WithinThen<T>(buf: seq<byte>, cur: nat, mid: nat, first: nat, rest: Got<T>, peeks: nat, v: nat, w: nat,
                      more: nat, more': nat)
    requires cur <= mid && v <= w && first + more <= Cost(w, Left(buf, cur) - Left(buf, mid)) + more'
    requires Within(buf, mid, rest, peeks, v, more)
    ensures Within(buf, cur, rest, first + peeks, w, more')
  {
    hide Cost;
    var a := Left(buf, cur) - Left(buf, mid);
    match rest
    case Got(_, c) =>
      if mid <= c {
        var b := Left(buf, mid) - Left(buf, c);
        CostAdds(w, a, b);
        CostGrows(v, w, b, b);
        assert a + b == Left(buf, cur) - Left(buf, c);
      }
    case Bad(_) =>
      CostAdds(w, a, Left(buf, mid));
      CostGrows(v, w, Left(buf, mid), Left(buf, mid));
  }

  lemma Costs(w: nat, a: nat)
    ensures Cost(0, a) == 0 && Cost(2, a) == 2 * a && Cost(w, 1) == w && Cost(w, 0) == 0
    ensures w >= 2 ==> 2 * a <= Cost(w, a)
    ensures a >= 1 ==> w <= Cost(w, a)
  {
    if a >= 1 {
      CostGrows(w, w, 1, a);
    }
    if w >= 2 {
      CostOfTwo(w, a);
    }
  }

  /** More is allowed. */
  lemma WithinMore<T>(buf: seq<byte>, cur: nat, g: Got<T>, peeks: nat, v: nat, more: nat, w: nat, more': nat)
    requires Within(buf, cur, g, peeks, v, more) && v <= w && more <= more'
    ensures Within(buf, cur, g, peeks, w, more')
  {
    hide Cost;
    CostGrows(v, w, Left(buf, cur), Left(buf, cur));
    if g.Got? && cur <= g.cur {
      var a := Left(buf, cur) - Left(buf, g.cur);
      CostGrows(v, w, a, a);
    }
  }

  /** A read that found its field costs no more than it passed; one that did not, two heads more. */
  lemma {:induction false} ReadWithin(buf: seq<byte>, cur: nat, ty: Ty, tag: byte)
    ensures var g, p := Read(buf, cur, ty, tag), ReadPeeks(buf, cur, ty, tag);
            && (g.Got? && g.v.Some? ==> Within(buf, cur, g, p, Weight(ty), 0))
            && (g.Got? && g.v.None? ==> Within(buf, cur, g, p, 2, 2))
            && (g.Bad? ==> Within(buf, cur, g, p, Weight(ty), Weight(ty)))
    decreases ty, 2, 0
  {
    hide SkipToTag, PeekHead, ReadBody, BodyPeeks, Cost, Weight;
    var s := SkipToTag(buf, cur, tag);
    Costs(2, Left(buf, cur) - Left(buf, s.cur));
    if s.found {
      var h, w := ReadHead(buf, s.cur), Weight(ty);
      BodyWithin(buf, h.cur, ty, h.v.kind);
      HeadPays(buf, cur, s.cur, h.cur, s.peeks, w);
      WithinThen(buf, cur, h.cur, s.peeks + 1, ReadBody(buf, h.cur, ty, h.v.kind), BodyPeeks(buf, h.cur, ty, h.v.kind),
                 w, w, w - 2, 0);
    }
  }

  /** The head found pays for itself and for what its body may cost beyond its bytes. */
  lemma HeadPays(buf: seq<byte>, cur: nat, at: nat, mid: nat, peeks: nat, w: nat)
    requires cur <= at <= mid && Left(buf, mid) < Left(buf, at) && w >= 4
    requires peeks <= 2 * (Left(buf, cur) - Left(buf, at)) + 1
    ensures peeks + 1 + (w - 2) <= Cost(w, Left(buf, cur) - Left(buf, mid))
  {
    hide Cost;
    var a, b := Left(buf, cur) - Left(buf, at), Left(buf, at) - Left(buf, mid);
    CostAdds(w, a, b);
    Costs(w, a);
    Costs(w, b);
    assert a + b == Left(buf, cur) - Left(buf, mid);
  }

  lemma {:induction false} BodyWithin(buf: seq<byte>, cur: nat, ty: Ty, kind: Kind)
    ensures Within(buf, cur, ReadBody(buf, cur, ty, kind), BodyPeeks(buf, cur, ty, kind), Weight(ty), Weight(ty) - 2)
    decreases ty, 1, 0
  {
    hide ReadBody, Within, Weight, BodyPeeks;
    BodyPays(buf, cur, ty, kind);
    match ty
    case BytesT => BytesWithin(buf, cur, kind);
    case ListT(elem) => ListWithin(buf, cur, elem, kind);
    case MapT(key, val) => MapWithin(buf, cur, key, val, kind);
    case StructT(slots) => StructWithin(buf, cur, slots, kind);
    case _ => ScalarWithin(buf, cur, ty, kind);
  }

  lemma ScalarWithin(buf: seq<byte>, cur: nat, ty: Ty, kind: Kind)
    requires !ty.BytesT? && !ty.ListT? && !ty.MapT? && !ty.StructT?
    requires Paid(buf, cur, ReadBody(buf, cur, ty, kind), 0)
    ensures Within(buf, cur, ReadBody(buf, cur, ty, kind), BodyPeeks(buf, cur, ty, kind), Weight(ty), Weight(ty) - 2)
  {
    hide ReadBody, Cost;
    Free(buf, cur, ReadBody(buf, cur, ty, kind), Weight(ty), Weight(ty) - 2);
  }

  /** No heads peeked. */
  lemma Free<T>(buf: seq<byte>, cur: nat, g: Got<T>, w: nat, more: nat)
    requires Paid(buf, cur, g, 0)
    ensures Within(buf, cur, g, 0, w, more)
  {
    hide Cost;
  }

  lemma SizeWithin(buf: seq<byte>, cur: nat)
    ensures Within(buf, cur, ReadSize(buf, cur), SizePeeks(buf, cur), 2, 2)
    ensures ReadSize(buf, cur).Got? ==> Within(buf, cur, ReadSize(buf, cur), SizePeeks(buf, cur), 2, 0)
  {
    hide ReadInt, Pow256;
    Costs(2, Left(buf, cur));
    if ReadSize(buf, cur).Got? {
      Costs(2, Left(buf, cur) - Left(buf, ReadSize(buf, cur).cur));
    }
  }

  /** A size that was read, and then what it counts. */
  lemma CountedWithin<T>(buf: seq<byte>, cur: nat, rest: Got<T>, peeks: nat, w: nat, more: nat)
    requires ReadSize(buf, cur).Got? && w >= 2
    requires Within(buf, ReadSize(buf, cur).cur, rest, peeks, w, more)
    ensures Within(buf, cur, rest, SizePeeks(buf, cur) + peeks, w, more)
  {
    hide ReadSize, Cost, SizePeeks;
    SizeWithin(buf, cur);
    var mid := ReadSize(buf, cur).cur;
    var a := Left(buf, cur) - Left(buf, mid);
    CostGrows(2, w, a, a);
    WithinThen(buf, cur, mid, SizePeeks(buf, cur), rest, peeks, w, w, more, more);
  }

  /** An exception, after no more than the size. */
  lemma SizeOnly<T>(buf: seq<byte>, cur: nat, g: Got<T>, peeks: nat, w: nat, more: nat)
    requires g.Bad? && w >= 2 && more >= 2 && peeks <= SizePeeks(buf, cur)
    ensures Within(buf, cur, g, peeks, w, more)
  {
    hide ReadInt, Cost;
    var c := ReadInt(buf, cur, 8, 0).cur;
    Costs(w, Left(buf, cur));
    assert SizePeeks(buf, cur) <= 2 * Passed(buf, cur, c) + 2;
  }

  lemma {:induction false} ListWithin(buf: seq<byte>, cur: nat, elem: Ty, kind: Kind)
    requires Paid(buf, cur, ReadBody(buf, cur, ListT(elem), kind), 0)
    ensures Within(buf, cur, ReadBody(buf, cur, ListT(elem), kind), BodyPeeks(buf, cur, ListT(elem), kind),
                   Weight(ListT(elem)), Weight(ListT(elem)) - 2)
    decreases elem, 6, 0
  {
    hide ReadBody, BodyPeeks, ReadSize, ReadItems, ItemsPeeks, SizePeeks, Within, Cost, Paid;
    ListBody(buf, cur, elem, kind);
    var g, w := ReadBody(buf, cur, ListT(elem), kind), Weight(elem);
    var n := ReadSize(buf, cur);
    if kind != LIST {
      Free(buf, cur, g, w + 4, w + 2);
    } else if n.Bad? || n.v > |buf| {
      SizeOnly(buf, cur, g, SizePeeks(buf, cur), w + 4, w + 2);
    } else {
      ItemsWithin(buf, n.cur, elem, n.v, []);
      CountedWithin(buf, cur, g, ItemsPeeks(buf, n.cur, elem, n.v), w, w);
      WithinMore(buf, cur, g, SizePeeks(buf, cur) + ItemsPeeks(buf, n.cur, elem, n.v), w, w, w + 4, w + 2);
    }
  }

  lemma {:induction false} ItemsWithin(buf: seq<byte>, cur: nat, elem: Ty, n: nat, acc: seq<Value>)
    ensures Within(buf, cur, ReadItems(buf, cur, elem, n, acc), ItemsPeeks(buf, cur, elem, n),
                   Weight(elem), Weight(elem))
    decreases elem, 4, n
  {
    hide Read, ReadPeeks, Cost, Weight;
    var w := Weight(elem);
    if n == 0 {
      Costs(w, 0);
    } else {
      ElementWithin(buf, cur, elem, 0);
      var g := ReadRequired(buf, cur, elem, 0);
      if g.Got? {
        ItemsWithin(buf, g.cur, elem, n - 1, acc + [g.v]);
        WithinThen(buf, cur, g.cur, ReadPeeks(buf, cur, elem, 0), ReadItems(buf, g.cur, elem, n - 1, acc + [g.v]),
                   ItemsPeeks(buf, g.cur, elem, n - 1), w, w, w, w);
      }
    }
  }

  /** A required read costs no more than it passed, unless it throws. */
  lemma {:induction false} ElementWithin(buf: seq<byte>, cur: nat, ty: Ty, tag: byte)
    ensures var g, p := ReadRequired(buf, cur, ty, tag), ReadPeeks(buf, cur, ty, tag);
            && (g.Got? ==> Within(buf, cur, g, p, Weight(ty), 0))
            && (g.Bad? ==> Within(buf, cur, g, p, Weight(ty), Weight(ty)))
    decreases ty, 3, 0
  {
    hide Read, ReadPeeks, Cost, Weight;
    ReadWithin(buf, cur, ty, tag);
    var r, w := Read(buf, cur, ty, tag), Weight(ty);
    if r.Got? {
      CostGrows(2, w, Left(buf, cur) - Left(buf, r.cur), Left(buf, cur));
    }
  }

  lemma {:induction false} MapWithin(buf: seq<byte>, cur: nat, key: Ty, val: Ty, kind: Kind)
    requires Paid(buf, cur, ReadBody(buf, cur, MapT(key, val), kind), 0)
    ensures Within(buf, cur, ReadBody(buf, cur, MapT(key, val), kind), BodyPeeks(buf, cur, MapT(key, val), kind),
                   Weight(MapT(key, val)), Weight(MapT(key, val)) - 2)
    decreases MapT(key, val), 0, |buf| + 1
  {
    hide ReadBody, BodyPeeks, ReadSize, ReadEntries, EntriesPeeks, SizePeeks, Within, Cost, Paid;
    MapBody(buf, cur, key, val, kind);
    var g, w := ReadBody(buf, cur, MapT(key, val), kind), Weight(key) + Weight(val);
    var n := ReadSize(buf, cur);
    if kind != MAP {
      Free(buf, cur, g, w + 4, w + 2);
    } else if n.Bad? || n.v > |buf| {
      SizeOnly(buf, cur, g, SizePeeks(buf, cur), w + 4, w + 2);
    } else {
      EntriesWithin(buf, n.cur, key, val, n.v, []);
      CountedWithin(buf, cur, g, EntriesPeeks(buf, n.cur, key, val, n.v), w, w);
      WithinMore(buf, cur, g, SizePeeks(buf, cur) + EntriesPeeks(buf, n.cur, key, val, n.v), w, w, w + 4, w + 2);
    }
  }

  /** What a turn of the map loop peeks. */
  lemma EntriesTurn(buf: seq<byte>, cur: nat, key: Ty, val: Ty, n: nat)
    requires n > 0
    ensures var p, pk := EntriesPeeks(buf, cur, key, val, n), ReadPeeks(buf, cur, key, 0);
            var k := ReadRequired(buf, cur, key, 0);
            && (k.Bad? ==> p == pk)
            && (k.Got? ==>
                  var x, px := ReadRequired(buf, k.cur, val, 1), ReadPeeks(buf, k.cur, val, 1);
                  p == pk + (px + if x.Got? then EntriesPeeks(buf, x.cur, key, val, n - 1) else 0))
  {
    hide ReadRequired, ReadPeeks;
  }

  lemma {:induction false} EntriesWithin(buf: seq<byte>, cur: nat, key: Ty, val: Ty, n: nat, acc: seq<Entry>)
    ensures Within(buf, cur, ReadEntries(buf, cur, key, val, n, acc), EntriesPeeks(buf, cur, key, val, n),
                   Weight(key) + Weight(val), Weight(key) + Weight(val))
    decreases MapT(key, val), 0, n
  {
    hide ReadRequired, ReadPeeks, Cost, Weight, Insert, Within, ReadEntries, EntriesPeeks;
    var w := Weight(key) + Weight(val);
    var r := ReadEntries(buf, cur, key, val, n, acc);
    if n == 0 {
      NoEntries(buf, cur, key, val, acc);
      Free(buf, cur, r, w, w);
    } else {
      ReadEntriesStep(buf, cur, key, val, n, acc);
      EntriesTurn(buf, cur, key, val, n);
      ElementWithin(buf, cur, key, 0);
      var k, p := ReadRequired(buf, cur, key, 0), ReadPeeks(buf, cur, key, 0);
      if k.Bad? {
        WithinMore(buf, cur, k, p, Weight(key), Weight(key), w, w);
        SameEnd(buf, cur, k, r, p, w, w);
      } else {
        ElementWithin(buf, k.cur, val, 1);
        var x, q := ReadRequired(buf, k.cur, val, 1), ReadPeeks(buf, k.cur, val, 1);
        if x.Bad? {
          WithinMore(buf, k.cur, x, q, Weight(val), Weight(val), w, w);
          SameEnd(buf, k.cur, x, r, q, w, w);
          Sequel(buf, cur, k, p, r, q, Weight(key), w, w);
        } else {
          var s := EntriesPeeks(buf, x.cur, key, val, n - 1);
          EntriesWithin(buf, x.cur, key, val, n - 1, Insert(acc, Entry(k.v, x.v)));
          Sequel(buf, k.cur, x, q, r, s, Weight(val), w, w);
          Sequel(buf, cur, k, p, r, q + s, Weight(key), w, w);
        }
      }
    }
  }

  /** A turn of the map loop that ends it. */
  lemma EntryStops(buf: seq<byte>, cur: nat, key: Ty, val: Ty, n: nat, m: seq<Entry>)
    requires n > 0
    ensures var k := ReadRequired(buf, cur, key, 0);
            && (k.Bad? ==> ReadEntries(buf, cur, key, val, n, m) == Bad(k.e)
                           && EntriesPeeks(buf, cur, key, val, n) == ReadPeeks(buf, cur, key, 0))
            && (k.Got? ==>
                  var x := ReadRequired(buf, k.cur, val, 1);
                  x.Bad? ==> ReadEntries(buf, cur, key, val, n, m) == Bad(x.e)
                             && EntriesPeeks(buf, cur, key, val, n) ==
                                ReadPeeks(buf, cur, key, 0) + ReadPeeks(buf, k.cur, val, 1))
  {
    hide ReadRequired, ReadPeeks, ReadEntries, EntriesPeeks, Insert;
    ReadEntriesStep(buf, cur, key, val, n, m);
    EntriesTurn(buf, cur, key, val, n);
  }

  /** A turn that goes on. */
  lemma EntryGoes(buf: seq<byte>, cur: nat, key: Ty, val: Ty, n: nat, m: seq<Entry>, k: Value, c: nat, x: Value, d: nat)
    requires n > 0 && ReadRequired(buf, cur, key, 0) == Got(k, c) && ReadRequired(buf, c, val, 1) == Got(x, d)
    ensures ReadEntries(buf, cur, key, val, n, m) == ReadEntries(buf, d, key, val, n - 1, Insert(m, Entry(k, x)))
    ensures EntriesPeeks(buf, cur, key, val, n) ==
            ReadPeeks(buf, cur, key, 0) + ReadPeeks(buf, c, val, 1) + EntriesPeeks(buf, d, key, val, n - 1)
  {
    hide ReadRequired, ReadPeeks, ReadEntries, EntriesPeeks, Insert;
    ReadEntriesStep(buf, cur, key, val, n, m);
    EntriesTurn(buf, cur, key, val, n);
  }

  lemma NoEntries(buf: seq<byte>, cur: nat, key: Ty, val: Ty, acc: seq<Entry>)
    ensures ReadEntries(buf, cur, key, val, 0, acc) == Got(MapV(acc), cur) && EntriesPeeks(buf, cur, key, val, 0) == 0
  {
  }

  /** Two outcomes that end alike. */
  lemma SameEnd<S, T>(buf: seq<byte>, cur: nat, g: Got<S>, r: Got<T>, peeks: nat, w: nat, more: nat)
    requires Within(buf, cur, g, peeks, w, more)
    requires (g.Bad? && r.Bad?) || (g.Got? && r.Got? && g.cur == r.cur)
    ensures Within(buf, cur, r, peeks, w, more)
  {
    hide Cost;
  }

  /** A read that went well within its bytes, and what comes after it. */
  lemma Sequel<S, T>(buf: seq<byte>, cur: nat, g: Got<S>, p: nat, r: Got<T>, q: nat, v: nat, w: nat, more: nat)
    requires g.Got? && Within(buf, cur, g, p, v, 0) && v <= w && Within(buf, g.cur, r, q, w, more)
    ensures Within(buf, cur, r, p + q, w, more)
  {
    hide Cost;
    var a := Left(buf, cur) - Left(buf, g.cur);
    CostGrows(v, w, a, a);
    WithinThen(buf, cur, g.cur, p, r, q, w, w, more, more);
  }

  lemma {:induction false} CharsWithin(buf: seq<byte>, cur: nat, n: nat, acc: seq<byte>)
    ensures Within(buf, cur, ReadCharItems(buf, cur, n, acc), CharsPeeks(buf, cur, n), 2, 2)
    decreases n
  {
    hide ReadInt, Within, Cost;
    var g := ReadCharItems(buf, cur, n, acc);
    if n == 0 {
      Free(buf, cur, g, 2, 2);
    } else {
      var r := ReadInt(buf, cur, 1, 0);
      CharWithin(buf, cur, g);
      if r.Done? && r.v.Some? {
        CharsWithin(buf, r.cur, n - 1, acc + [Unsigned(r.v.value, 1)]);
        Costs(2, Left(buf, cur) - Left(buf, r.cur));
        WithinThen(buf, cur, r.cur, r.peeks, g, CharsPeeks(buf, r.cur, n - 1), 2, 2, 2, 2);
      }
    }
  }

  lemma CharWithin<T>(buf: seq<byte>, cur: nat, g: Got<T>)
    ensures var r := ReadInt(buf, cur, 1, 0);
            && (r.Done? && r.v.Some? ==> cur <= r.cur && r.peeks <= 2 * (Left(buf, cur) - Left(buf, r.cur)))
            && (g.Bad? ==> Within(buf, cur, g, r.peeks, 2, 2))
  {
    hide ReadInt, Cost;
    Costs(2, Left(buf, cur));
  }

  lemma BytesWithin(buf: seq<byte>, cur: nat, kind: Kind)
    requires Paid(buf, cur, ReadBody(buf, cur, BytesT, kind), 0)
    ensures Within(buf, cur, ReadBody(buf, cur, BytesT, kind), BodyPeeks(buf, cur, BytesT, kind),
                   Weight(BytesT), Weight(BytesT) - 2)
  {
    hide ReadBytes, BytesPeeks, Within, Cost;
    var g := ReadBytes(buf, cur, kind);
    if kind == SIMPLE_LIST {
      BlockWithin(buf, cur);
    } else if kind == LIST {
      CharListWithin(buf, cur);
    } else {
      NoBytesPeeks(buf, cur, kind);
      Free(buf, cur, g, 4, 2);
    }
  }

  lemma NoBytesPeeks(buf: seq<byte>, cur: nat, kind: Kind)
    requires kind != SIMPLE_LIST && kind != LIST
    ensures BytesPeeks(buf, cur, kind) == 0
  {
  }

  lemma BlockWithin(buf: seq<byte>, cur: nat)
    requires Paid(buf, cur, ReadBytes(buf, cur, SIMPLE_LIST), 0)
    ensures Within(buf, cur, ReadBytes(buf, cur, SIMPLE_LIST), BytesPeeks(buf, cur, SIMPLE_LIST), 4, 2)
  {
    hide PeekHead, ReadSize, SizePeeks, Cost;
    var h, g := ReadHead(buf, cur), ReadBytes(buf, cur, SIMPLE_LIST);
    Costs(4, Left(buf, cur));
    if h.Done? && h.v.kind == CHAR {
      var n := ReadSize(buf, h.cur);
      SizeWithin(buf, h.cur);
      Costs(2, Left(buf, h.cur));
      if g.Got? {
        Costs(4, Left(buf, cur) - Left(buf, g.cur));
        Costs(2, Left(buf, h.cur) - Left(buf, n.cur));
      } else if n.Got? {
        Costs(2, Left(buf, h.cur) - Left(buf, n.cur));
      }
    }
  }

  lemma CharListWithin(buf: seq<byte>, cur: nat)
    ensures Within(buf, cur, ReadBytes(buf, cur, LIST), BytesPeeks(buf, cur, LIST), 4, 2)
  {
    hide ReadSize, SizePeeks, ReadCharItems, CharsPeeks, Within, Cost;
    var n, g := ReadSize(buf, cur), ReadBytes(buf, cur, LIST);
    if n.Bad? || n.v > |buf| {
      SizeOnly(buf, cur, g, SizePeeks(buf, cur), 4, 2);
    } else {
      CharsWithin(buf, n.cur, n.v, []);
      CountedWithin(buf, cur, g, CharsPeeks(buf, n.cur, n.v), 2, 2);
      WithinMore(buf, cur, g, SizePeeks(buf, cur) + CharsPeeks(buf, n.cur, n.v), 2, 2, 4, 2);
    }
  }

  lemma {:induction false} StructWithin(buf: seq<byte>, cur: nat, slots: seq<Slot>, kind: Kind)
    requires Paid(buf, cur, ReadBody(buf, cur, StructT(slots), kind), 0)
    ensures Within(buf, cur, ReadBody(buf, cur, StructT(slots), kind), BodyPeeks(buf, cur, StructT(slots), kind),
                   Weight(StructT(slots)), Weight(StructT(slots)) - 2)
    decreases slots, 2, 0
  {
    hide ReadSlots, SlotsPeeks, SkipToStructEnd, Within, Cost;
    var g, w := ReadBody(buf, cur, StructT(slots), kind), SlotsWeight(slots);
    if kind != STRUCT_BEGIN {
      Free(buf, cur, g, w + 4, w + 2);
    } else {
      var r, p := ReadSlots(buf, cur, slots), SlotsPeeks(buf, cur, slots);
      SlotsWithin(buf, cur, slots);
      WithinMore(buf, cur, r, p, w, w, w + 4, w);
      if r.Bad? {
        WithinMore(buf, cur, r, p, w, w, w + 4, w + 2);
        SameEnd(buf, cur, r, g, p, w + 4, w + 2);
      } else {
        EndWithin(buf, r.cur, g);
        SlotsThenEnd(buf, cur, r, p, g, SkipToStructEnd(buf, r.cur).peeks, w);
      }
    }
  }

  /** The way to the end of a struct. */
  lemma EndWithin<T>(buf: seq<byte>, cur: nat, g: Got<T>)
    requires var e := SkipToStructEnd(buf, cur); if e.Done? then g.Got? && g.cur == e.cur else g.Bad?
    ensures Within(buf, cur, g, SkipToStructEnd(buf, cur).peeks, 2, 2)
  {
    hide SkipToStructEnd, Cost;
    Costs(2, Left(buf, cur));
    Costs(2, Left(buf, cur) - Left(buf, SkipToStructEnd(buf, cur).cur));
  }

  lemma SlotsThenEnd<S, T>(buf: seq<byte>, cur: nat, r: Got<S>, p: nat, g: Got<T>, q: nat, w: nat)
    requires r.Got? && Within(buf, cur, r, p, w + 4, w) && Within(buf, r.cur, g, q, 2, 2)
    ensures Within(buf, cur, g, p + q, w + 4, w + 2)
  {
    hide Cost;
    WithinThen(buf, cur, r.cur, p, g, q, 2, w + 4, 2, w + 2);
  }

  lemma {:induction false} SlotWithin(buf: seq<byte>, cur: nat, slot: Slot)
    ensures var g, p := ReadSlot(buf, cur, slot), SlotPeeks(buf, cur, slot);
            && (g.Got? ==> Within(buf, cur, g, p, SlotWeight(slot), 2))
            && (g.Bad? ==> Within(buf, cur, g, p, SlotWeight(slot), SlotWeight(slot)))
    decreases slot, 0, 0
  {
    hide Read, ReadPeeks, Cost, Weight;
    ReadWithin(buf, cur, slot.ty, slot.tag);
    var r, w := Read(buf, cur, slot.ty, slot.tag), SlotWeight(slot);
    CostGrows(Weight(slot.ty), w, Left(buf, cur), Left(buf, cur));
    if r.Got? {
      var a := Left(buf, cur) - Left(buf, r.cur);
      CostGrows(Weight(slot.ty), w, a, a);
      CostGrows(2, w, a, a);
      CostGrows(2, w, a, Left(buf, cur));
    }
  }

  lemma {:induction false} SlotsWithin(buf: seq<byte>, cur: nat, slots: seq<Slot>)
    ensures Within(buf, cur, ReadSlots(buf, cur, slots), SlotsPeeks(buf, cur, slots),
                   SlotsWeight(slots), SlotsWeight(slots))
    decreases slots, 0, 0
  {
    hide ReadSlot, SlotPeeks, Cost, SlotWeight, Within;
    var r, w := ReadSlots(buf, cur, slots), SlotsWeight(slots);
    if slots == [] {
      Free(buf, cur, r, w, w);
    } else {
      var g, p, v := ReadSlot(buf, cur, slots[0]), SlotPeeks(buf, cur, slots[0]), SlotWeight(slots[0]);
      SlotWithin(buf, cur, slots[0]);
      if g.Bad? {
        WithinMore(buf, cur, g, p, v, v, w, w);
        SameEnd(buf, cur, g, r, p, w, w);
      } else {
        var rest, q := ReadSlots(buf, g.cur, slots[1..]), SlotsPeeks(buf, g.cur, slots[1..]);
        SlotsWithin(buf, g.cur, slots[1..]);
        WithinMore(buf, cur, g, p, v, 2, w, 2);
        FirstThenRest(buf, cur, g, p, rest, q, SlotsWeight(slots[1..]), w);
        SameEnd(buf, cur, rest, r, p + q, w, w);
      }
    }
  }

  lemma FirstThenRest<S, T>(buf: seq<byte>, cur: nat, g: Got<S>, p: nat, rest: Got<T>, q: nat, u: nat, w: nat)
    requires g.Got? && Within(buf, cur, g, p, w, 2) && Within(buf, g.cur, rest, q, u, u) && u + 2 <= w
    ensures Within(buf, cur, rest, p + q, w, w)
  {
    hide Cost;
    WithinThen(buf, cur, g.cur, p, rest, q, u, w, u, w);
  }

  /** On arbitrary bytes, whatever the outcome: a read peeks no more heads than its type's weight for every byte
      left, and once more. */
  lemma PeeksAreLinear(buf: seq<byte>, cur: nat, ty: Ty, tag: byte)
    ensures ReadPeeks(buf, cur, ty, tag) <= Weight(ty) * (Left(buf, cur) + 1)
  {
    hide Read, ReadPeeks, Weight;
    var g, w := Read(buf, cur, ty, tag), Weight(ty);
    ReadWithin(buf, cur, ty, tag);
    assert Cost(w, Left(buf, cur)) + w == w * (Left(buf, cur) + 1);
    if g.Got? {
      var a := Left(buf, cur) - Left(buf, g.cur);
      CostGrows(w, w, a, Left(buf, cur));
      CostGrows(2, w, a, Left(buf, cur));
    }
  }
}
