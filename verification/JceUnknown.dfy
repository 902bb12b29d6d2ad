/** readUnknown and writeUnknown: a reader that knows only the first fields can pass the rest on. */
module JceUnknown {
  import opened Wrappers
  import opened Bytes
  import opened JceValue
  import opened JceReader
  import opened JceSchema
  import opened JceLookup
  import opened JceIntegers
  import opened JceSkipping
  import opened JceDecoding
  import opened JceRecords

  lemma UnknownStops(buf: seq<byte>, end: nat, t: byte)
    requires Ends(buf, end) && end <= |buf|
    requires end < |buf| ==> PeekHead(buf, end).value.0.tag <= t
    ensures Reaches(ReadUnknown(buf, end, t), end)
  {
    hide PeekHead, SkipBody;
  }

  lemma UnknownStep(buf: seq<byte>, end: nat, fs: seq<Field>, t: byte)
    requires Tail(buf, end, fs) && fs != [] && t < fs[0].tag && FitFields(fs)
    ensures Tail(buf, end, fs[1..])
    ensures var r := ReadUnknown(buf, Pos(end, fs[1..]), fs[0].tag);
            r.Done? ==> Reaches(ReadUnknown(buf, Pos(end, fs), t), r.cur)
  {
    hide PeekHead, SkipBody, Head, Body, EncFields;
    TailStep(buf, end, fs);
    TailPeek(buf, end, fs);
    BodySkips(buf, Pos(end, fs) + |Head(KindOf(fs[0].val), fs[0].tag)|, fs[0].val);
  }

  /** Fields rising above the last known tag are passed up to the end of the record. */
  lemma {:induction false} UnknownPasses(buf: seq<byte>, end: nat, fs: seq<Field>, t: byte)
    requires Tail(buf, end, fs) && FitFields(fs) && Ascending(fs) && (fs == [] || t < fs[0].tag)
    requires end <= |buf| && (end < |buf| ==> PeekHead(buf, end).value.0.tag == 0)
    ensures Reaches(ReadUnknown(buf, Pos(end, fs), t), end)
    decreases |fs|
  {
    hide ReadUnknown, EncFields, PeekHead, FitsField, At;
    if fs == [] {
      EmptyTail(buf, end);
      UnknownStops(buf, end, t);
    } else {
      UnknownStep(buf, end, fs, t);
      UnknownPasses(buf, end, fs[1..], fs[0].tag);
    }
  }

  lemma EmptyTail(buf: seq<byte>, end: nat)
    ensures Tail(buf, end, []) ==> Pos(end, []) == end
  {
  }

  lemma {:induction false} EncFieldsAppend(fs: seq<Field>, gs: seq<Field>)
    ensures EncFields(fs + gs) == EncFields(fs) + EncFields(gs)
    decreases |fs|
  {
    hide EncField;
    if fs == [] {
      assert fs + gs == gs;
    } else {
      EncFieldsAppend(fs[1..], gs);
      assert (fs + gs)[1..] == fs[1..] + gs;
    }
  }

  lemma AfterFirst(fs: seq<Field>, t: byte)
    requires Hit(fs, t)
    ensures After(fs, t) == fs[1..]
  {
  }

  /** readFrom with slots for the first fields of a record stands at the first of the others. */
  lemma {:induction false} RestIsUnknown(slots: seq<Slot>, known: seq<Field>, unknown: seq<Field>)
    requires ConformFields(slots, known) && Ascending(known + unknown)
    ensures Rest(slots, known + unknown) == unknown
    decreases |slots|
  {
    hide Conforms, After;
    var fs := known + unknown;
    if slots == [] {
      assert fs == unknown;
    } else {
      AfterFirst(fs, slots[0].tag);
      assert fs[1..] == known[1..] + unknown;
      RestIsUnknown(slots[1..], known[1..], unknown);
    }
  }

  /** A reader that knows the first fields of a record reads them; readUnknown from the last known tag
      then takes exactly the bytes of the others; and writing the known fields again followed by
      writeUnknown reproduces the record byte for byte. */
  lemma UnknownIsPreserved(slots: seq<Slot>, known: seq<Field>, unknown: seq<Field>)
    requires FitFields(known + unknown) && Ascending(known + unknown) && OrderedFields(known + unknown)
    requires slots != [] && AscendingSlots(slots) && OrderedSlots(slots) && ConformFields(slots, known)
    ensures var buf := EncFields(known + unknown);
            var g := ReadSlots(buf, 0, slots);
            && g.Got? && g.v == known && g.cur <= |buf|
            && Reaches(ReadUnknown(buf, g.cur, slots[|slots| - 1].tag), |buf|)
            && buf[g.cur..] == EncFields(unknown)
            && EncFields(g.v) + buf[g.cur..] == buf
  {
    hide ReadSlots, ProjectSlots, EncFields, Rest, ReadUnknown, ConformFields, OrderedSlots, OrderedFields, FitFields;
    var fs := known + unknown;
    var buf := EncFields(fs);
    WholeBuffer(fs);
    SlotsBack(buf, |buf|, slots, fs);
    RestIsUnknown(slots, known, unknown);
    KnownProject(slots, known, unknown);
    TagsRise(slots, known);
    EncFieldsAppend(known, unknown);
    assert buf[|EncFields(known)|..] == EncFields(unknown);
    ConformLengths(slots, known);
    SuffixAscends(known, unknown);
    UnknownPasses(buf, |buf|, unknown, slots[|slots| - 1].tag);
  }

  /** The same inside a struct: readUnknown stops before the StructEnd, and reading goes on behind it. */
  lemma UnknownInStructIsPreserved(buf: seq<byte>, cur: nat, slots: seq<Slot>, known: seq<Field>, unknown: seq<Field>)
    requires FitFields(known + unknown) && Ascending(known + unknown) && OrderedFields(known + unknown)
    requires slots != [] && AscendingSlots(slots) && OrderedSlots(slots) && ConformFields(slots, known)
    requires At(buf, cur, EncFields(known + unknown) + Head(STRUCT_END, 0))
    ensures var end := cur + |EncFields(known + unknown)|;
            var g := ReadSlots(buf, cur, slots);
            && g.Got? && g.v == known && cur <= g.cur <= end <= |buf|
            && Reaches(ReadUnknown(buf, g.cur, slots[|slots| - 1].tag), end)
            && buf[g.cur..end] == EncFields(unknown)
            && EncFields(g.v) + buf[g.cur..end] == buf[cur..end]
            && Reaches(SkipToStructEnd(buf, end), end + 1)
  {
    hide ReadSlots, ProjectSlots, EncFields, Rest, ReadUnknown, ConformFields, OrderedSlots, OrderedFields, FitFields;
    hide SkipToStructEnd, PeekHead;
    var fs := known + unknown;
    var end := cur + |EncFields(fs)|;
    AtSplit(buf, cur, EncFields(fs), Head(STRUCT_END, 0));
    HeadPeek(buf, end, STRUCT_END, 0);
    StructEndSkips(buf, end);
    SlotsBack(buf, end, slots, fs);
    RestIsUnknown(slots, known, unknown);
    KnownProject(slots, known, unknown);
    TagsRise(slots, known);
    EncFieldsAppend(known, unknown);
    AtSplit(buf, cur, EncFields(known), EncFields(unknown));
    ConformLengths(slots, known);
    SuffixAscends(known, unknown);
    UnknownPasses(buf, end, unknown, slots[|slots| - 1].tag);
  }

  lemma ConformLengths(slots: seq<Slot>, fs: seq<Field>)
    requires ConformFields(slots, fs)
    ensures |slots| == |fs|
  {
  }

  lemma SuffixAscends(known: seq<Field>, unknown: seq<Field>)
    requires Ascending(known + unknown)
    ensures Ascending(unknown) && Ascending(known)
    ensures known != [] && unknown != [] ==> known[|known| - 1].tag < unknown[0].tag
  {
    var fs := known + unknown;
    if known != [] && unknown != [] {
      assert fs[|known| - 1].tag < fs[|known|].tag;
    }
    assert forall i :: 0 <= i < |unknown| ==> unknown[i] == fs[|known| + i];
    assert forall i :: 0 <= i < |known| ==> known[i] == fs[i];
  }

  /** Fields after the known ones do not disturb them. */
  lemma KnownProject(slots: seq<Slot>, known: seq<Field>, unknown: seq<Field>)
    requires ConformFields(slots, known) && AscendingSlots(slots) && OrderedSlots(slots)
    ensures ProjectSlots(slots, known + unknown) == Success(known)
  {
    hide ProjectSlots, ConformFields, OrderedSlots, Lookup;
    TagsRise(slots, known);
    ConformLengths(slots, known);
    FieldsProject(slots, known, known);
    forall i | 0 <= i < |slots|
      ensures Lookup(known + unknown, slots[i].tag) == Lookup(known, slots[i].tag)
    {
      LookupAt(known, i);
      assert (known + unknown)[i] == known[i];
      assert forall j :: 0 <= j < i ==> (known + unknown)[j] == known[j];
      LookupAt(known + unknown, i);
    }
    SameLookupsProjectAlike(slots, known + unknown, known);
  }
}
