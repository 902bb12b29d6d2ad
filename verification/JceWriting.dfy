/** What JceOutputStream hands to its buffer: the writeBuf calls a value makes, one by one, and what a
    growing or a fixed buffer keeps of them. */
module JceWriting {
  import opened Wrappers
  import opened Bytes
  import opened JceValue

  /** The exceptions of the writers: a fixed buffer that is full, a string that is too long. */
  datatype WriteError = NotEnoughBuff | StringTooLong

  /** The writeBuf calls of a write, and whether it ends normally or throws after the last of them. */
  datatype Trace = Trace(writes: seq<seq<byte>>, ok: bool)
  {
    /** This write and then another, which does not happen if this one throws. */
    function Then(t: Trace): Trace
    {
      if ok then Trace(writes + t.writes, t.ok) else this
    }
  }

  function Call(s: seq<byte>): Trace
  {
    Trace([s], true)
  }

  const NOTHING := Trace([], true)

  // JceOutputStream

  function EmitHead(kind: Kind, tag: byte): Trace
  {
    if tag < 15 then Call([kind + 16 * tag]) else Trace([[kind + 16 * 15], [tag]], true)
  }

  /** Every integer overload, for the number it is given. */
  function EmitInt(n: int, tag: byte): Trace
  {
    if n == 0 then EmitHead(ZERO_TAG, tag) else EmitHead(IntKind(IntWidth(n)), tag).Then(Call(IntBody(n)))
  }

  function EmitString(s: seq<byte>, tag: byte): Trace
  {
    if |s| > MAX_STRING_LENGTH then Trace([], false)
    else if |s| > 255 then EmitHead(STRING4, tag).Then(Trace([Wire(|s|, 4), s], true))
    else EmitHead(STRING1, tag).Then(Trace([[|s|], s], true))
  }

  function Emit(v: Value, tag: byte): Trace
    decreases v
  {
    match v
    case IntV(n) => EmitInt(n, tag)
    case FloatV(bits) => EmitHead(FLOAT, tag).Then(Call(Wire(bits, 4)))
    case DoubleV(bits) => EmitHead(DOUBLE, tag).Then(Call(Wire(bits, 8)))
    case StringV(s) => EmitString(s, tag)
    case BytesV(b) => EmitHead(SIMPLE_LIST, tag).Then(EmitHead(CHAR, 0)).Then(EmitInt(Wrap32(|b|), 0)).Then(Call(b))
    case ListV(items) => EmitHead(LIST, tag).Then(EmitInt(Wrap32(|items|), 0)).Then(EmitItems(items))
    case MapV(entries) => EmitHead(MAP, tag).Then(EmitInt(Wrap32(|entries|), 0)).Then(EmitEntries(entries))
    case StructV(fields) => EmitHead(STRUCT_BEGIN, tag).Then(EmitFields(fields)).Then(EmitHead(STRUCT_END, 0))
  }

  function EmitItems(items: seq<Value>): Trace
    decreases items
  {
    if items == [] then NOTHING else Emit(items[0], 0).Then(EmitItems(items[1..]))
  }

  function EmitEntry(e: Entry): Trace
    decreases e
  {
    Emit(e.key, 0).Then(Emit(e.val, 1))
  }

  function EmitEntries(es: seq<Entry>): Trace
    decreases es
  {
    if es == [] then NOTHING else EmitEntry(es[0]).Then(EmitEntries(es[1..]))
  }

  function EmitField(f: Field): Trace
    decreases f
  {
    Emit(f.val, f.tag)
  }

  /** A struct's writeTo. */
  function EmitFields(fs: seq<Field>): Trace
    decreases fs
  {
    if fs == [] then NOTHING else EmitField(fs[0]).Then(EmitFields(fs[1..]))
  }

  lemma ContainersEmit(items: seq<Value>, es: seq<Entry>, tag: byte)
    ensures Emit(ListV(items), tag) == EmitHead(LIST, tag).Then(EmitInt(Wrap32(|items|), 0)).Then(EmitItems(items))
    ensures Emit(MapV(es), tag) == EmitHead(MAP, tag).Then(EmitInt(Wrap32(|es|), 0)).Then(EmitEntries(es))
  {
    hide EmitHead, EmitInt, EmitItems, EmitEntries;
  }

  /** What the source's types can hold at all: numbers within Int64, words within their width. Strings may
      be too long to be written, and a count is converted to Int32. */
  predicate InMemory(v: Value)
  {
    match v
    case IntV(n) => FitsSigned(n, 8)
    case FloatV(bits) => bits < Pow256(4)
    case DoubleV(bits) => bits < Pow256(8)
    case StringV(s) => |s| < Pow256(4)
    case BytesV(_) => true
    case ListV(items) => ItemsInMemory(items)
    case MapV(entries) => EntriesInMemory(entries)
    case StructV(fields) => FieldsInMemory(fields)
  }

  predicate ItemsInMemory(items: seq<Value>)
  {
    items == [] || (InMemory(items[0]) && ItemsInMemory(items[1..]))
  }

  predicate EntryInMemory(e: Entry)
  {
    InMemory(e.key) && InMemory(e.val)
  }

  predicate EntriesInMemory(es: seq<Entry>)
  {
    es == [] || (EntryInMemory(es[0]) && EntriesInMemory(es[1..]))
  }

  predicate FieldInMemory(f: Field)
  {
    InMemory(f.val)
  }

  predicate FieldsInMemory(fs: seq<Field>)
  {
    fs == [] || (FieldInMemory(fs[0]) && FieldsInMemory(fs[1..]))
  }

  function Flatten(writes: seq<seq<byte>>): seq<byte>
  {
    if writes == [] then [] else writes[0] + Flatten(writes[1..])
  }

  lemma {:induction false} FlattenAppend(a: seq<seq<byte>>, b: seq<seq<byte>>)
    ensures Flatten(a + b) == Flatten(a) + Flatten(b)
    decreases |a|
  {
    if a == [] {
      assert a + b == b;
    } else {
      FlattenAppend(a[1..], b);
      assert (a + b)[1..] == a[1..] + b;
    }
  }

  /** A trace that ends normally and whose calls add up to s. */
  predicate Yields(t: Trace, s: seq<byte>)
  {
    t.ok && Flatten(t.writes) == s
  }

  lemma ThenYields(t: Trace, s: seq<byte>, t': Trace, s': seq<byte>)
    requires Yields(t, s) && Yields(t', s')
    ensures Yields(t.Then(t'), s + s')
  {
    hide Flatten;
    FlattenAppend(t.writes, t'.writes);
  }

  lemma CallYields(s: seq<byte>)
    ensures Yields(Call(s), s)
  {
    assert Flatten([s]) == s + Flatten([]);
  }

  lemma PairYields(a: seq<byte>, b: seq<byte>)
    ensures Yields(Trace([a, b], true), a + b)
  {
    CallYields(a);
    CallYields(b);
    ThenYields(Call(a), a, Call(b), b);
  }

  lemma HeadYields(kind: Kind, tag: byte)
    ensures Yields(EmitHead(kind, tag), Head(kind, tag))
  {
    if tag < 15 {
      CallYields([kind + 16 * tag]);
    } else {
      PairYields([kind + 16 * 15], [tag]);
    }
  }

  lemma IntYields(n: int, tag: byte)
    ensures Yields(EmitInt(n, tag), EncInt(n, tag))
  {
    hide EmitHead, Head;
    HeadYields(IntKind(IntWidth(n)), tag);
    if n != 0 {
      CallYields(IntBody(n));
      ThenYields(EmitHead(IntKind(IntWidth(n)), tag), Head(IntKind(IntWidth(n)), tag), Call(IntBody(n)), IntBody(n));
    }
  }

  lemma StringYields(s: seq<byte>, tag: byte)
    requires |s| <= MAX_STRING_LENGTH
    ensures Yields(EmitString(s, tag), Enc(StringV(s), tag))
  {
    hide EmitHead, Head, Wire;
    var kind := KindOf(StringV(s));
    HeadYields(kind, tag);
    if |s| > 255 {
      PairYields(Wire(|s|, 4), s);
      ThenYields(EmitHead(kind, tag), Head(kind, tag), Trace([Wire(|s|, 4), s], true), Wire(|s|, 4) + s);
    } else {
      PairYields([|s|], s);
      ThenYields(EmitHead(kind, tag), Head(kind, tag), Trace([[|s|], s], true), [|s|] + s);
    }
  }

  /** Writing a value that fits ends normally, and the calls add up to its encoding. */
  lemma {:induction false} EmitYields(v: Value, tag: byte)
    requires Fits(v)
    ensures Yields(Emit(v, tag), Enc(v, tag))
    decreases v, 1
  {
    hide EmitHead, Head, EmitInt, EmitString, Wire, Yields;
    match v
    case IntV(n) => IntYields(n, tag);
    case FloatV(bits) => WordYields(FLOAT, tag, Wire(bits, 4));
    case DoubleV(bits) => WordYields(DOUBLE, tag, Wire(bits, 8));
    case StringV(s) => StringYields(s, tag);
    case BytesV(b) => BytesYield(b, tag);
    case ListV(items) =>
      ItemsYield(items);
      CountedYields(LIST, tag, |items|, EmitItems(items), EncItems(items));
    case MapV(entries) =>
      EntriesYield(entries);
      CountedYields(MAP, tag, |entries|, EmitEntries(entries), EncEntries(entries));
    case StructV(fields) =>
      FieldsYield(fields);
      StructYields(fields, tag);
  }

  lemma WordYields(kind: Kind, tag: byte, w: seq<byte>)
    ensures Yields(EmitHead(kind, tag).Then(Call(w)), Head(kind, tag) + w)
  {
    hide EmitHead, Head, Yields;
    HeadYields(kind, tag);
    CallYields(w);
    ThenYields(EmitHead(kind, tag), Head(kind, tag), Call(w), w);
  }

  /** A head, a count and what is counted. */
  lemma CountedYields(kind: Kind, tag: byte, n: nat, t: Trace, s: seq<byte>)
    requires n < 0x8000_0000 && Yields(t, s)
    ensures Yields(EmitHead(kind, tag).Then(EmitInt(Wrap32(n), 0)).Then(t), Head(kind, tag) + (EncInt(n, 0) + s))
  {
    hide EmitHead, Head, EmitInt, EncInt, Yields;
    HeadYields(kind, tag);
    IntYields(n, 0);
    ThenYields(EmitHead(kind, tag), Head(kind, tag), EmitInt(n, 0), EncInt(n, 0));
    ThenYields(EmitHead(kind, tag).Then(EmitInt(n, 0)), Head(kind, tag) + EncInt(n, 0), t, s);
    assert Head(kind, tag) + EncInt(n, 0) + s == Head(kind, tag) + (EncInt(n, 0) + s);
  }

  lemma BytesYield(b: seq<byte>, tag: byte)
    requires |b| < 0x8000_0000
    ensures Yields(Emit(BytesV(b), tag), Enc(BytesV(b), tag))
  {
    hide EmitHead, Head, EmitInt, EncInt, Yields;
    var h, c, n := Head(SIMPLE_LIST, tag), Head(CHAR, 0), EncInt(|b|, 0);
    HeadYields(SIMPLE_LIST, tag);
    HeadYields(CHAR, 0);
    IntYields(|b|, 0);
    CallYields(b);
    var t := EmitHead(SIMPLE_LIST, tag).Then(EmitHead(CHAR, 0));
    ThenYields(EmitHead(SIMPLE_LIST, tag), h, EmitHead(CHAR, 0), c);
    ThenYields(t, h + c, EmitInt(|b|, 0), n);
    ThenYields(t.Then(EmitInt(|b|, 0)), h + c + n, Call(b), b);
    assert h + c + n + b == h + (c + n + b);
  }

  lemma StructYields(fs: seq<Field>, tag: byte)
    requires Yields(EmitFields(fs), EncFields(fs))
    ensures Yields(Emit(StructV(fs), tag), Enc(StructV(fs), tag))
  {
    hide EmitHead, Head, EmitFields, EncFields, Yields;
    var h, e := Head(STRUCT_BEGIN, tag), Head(STRUCT_END, 0);
    HeadYields(STRUCT_BEGIN, tag);
    HeadYields(STRUCT_END, 0);
    ThenYields(EmitHead(STRUCT_BEGIN, tag), h, EmitFields(fs), EncFields(fs));
    ThenYields(EmitHead(STRUCT_BEGIN, tag).Then(EmitFields(fs)), h + EncFields(fs), EmitHead(STRUCT_END, 0), e);
    assert h + EncFields(fs) + e == h + (EncFields(fs) + e);
  }

  lemma {:induction false} ItemsYield(items: seq<Value>)
    requires FitItems(items)
    ensures Yields(EmitItems(items), EncItems(items))
    decreases items, 0
  {
    hide Emit, Enc, Fits;
    if items != [] {
      EmitYields(items[0], 0);
      ItemsYield(items[1..]);
      ThenYields(Emit(items[0], 0), Enc(items[0], 0), EmitItems(items[1..]), EncItems(items[1..]));
    }
  }

  lemma {:induction false} EntryYields(e: Entry)
    requires FitsEntry(e)
    ensures Yields(EmitEntry(e), EncEntry(e))
    decreases e, 0
  {
    hide Emit, Enc, Fits;
    EmitYields(e.key, 0);
    EmitYields(e.val, 1);
    ThenYields(Emit(e.key, 0), Enc(e.key, 0), Emit(e.val, 1), Enc(e.val, 1));
  }

  lemma {:induction false} EntriesYield(es: seq<Entry>)
    requires FitEntries(es)
    ensures Yields(EmitEntries(es), EncEntries(es))
    decreases es, 0
  {
    hide EmitEntry, EncEntry, FitsEntry;
    if es != [] {
      EntryYields(es[0]);
      EntriesYield(es[1..]);
      ThenYields(EmitEntry(es[0]), EncEntry(es[0]), EmitEntries(es[1..]), EncEntries(es[1..]));
    }
  }

  lemma {:induction false} FieldYields(f: Field)
    requires FitsField(f)
    ensures Yields(EmitField(f), EncField(f))
    decreases f, 0
  {
    hide Emit, Enc, Fits;
    EmitYields(f.val, f.tag);
  }

  lemma {:induction false} FieldsYield(fs: seq<Field>)
    requires FitFields(fs)
    ensures Yields(EmitFields(fs), EncFields(fs))
    decreases fs, 0
  {
    hide EmitField, EncField, FitsField;
    if fs != [] {
      FieldYields(fs[0]);
      FieldsYield(fs[1..]);
      ThenYields(EmitField(fs[0]), EncField(fs[0]), EmitFields(fs[1..]), EncFields(fs[1..]));
    }
  }

  // Buffers. Room is None for a buffer that grows.

  /** What arrived and the exception, if any. */
  datatype Delivery = Delivery(sent: seq<byte>, err: Option<WriteError>)

  function Less(room: Option<nat>, n: nat): Option<nat>
  {
    match room
    case None => None
    case Some(k) => Some(if n < k then k - n else 0)
  }

  function Deliver(t: Trace, room: Option<nat>): Delivery
    decreases |t.writes|
  {
    if t.writes == [] then Delivery([], if t.ok then None else Some(StringTooLong))
    else if room.Some? && |t.writes[0]| > room.value then Delivery([], Some(NotEnoughBuff))
    else
      var d := Deliver(Trace(t.writes[1..], t.ok), Less(room, |t.writes[0]|));
      Delivery(t.writes[0] + d.sent, d.err)
  }

  /** One write and, unless it throws, the next. */
  function Both(a: Delivery, t: Trace, room: Option<nat>): Delivery
  {
    if a.err.Some? then a
    else
      var b := Deliver(t, Less(room, |a.sent|));
      Delivery(a.sent + b.sent, b.err)
  }

  lemma {:induction false} DeliverThen(t: Trace, t': Trace, room: Option<nat>)
    ensures Deliver(t.Then(t'), room) == Both(Deliver(t, room), t', room)
    decreases |t.writes|
  {
    if t.writes == [] {
      if t.ok {
        assert t.writes + t'.writes == t'.writes;
        assert Less(room, 0) == room;
        assert [] + Deliver(t', room).sent == Deliver(t', room).sent;
      }
    } else if room.Some? && |t.writes[0]| > room.value {
      assert t.Then(t').writes[0] == t.writes[0];
    } else {
      var rest := Trace(t.writes[1..], t.ok);
      DeliverThen(rest, t', Less(room, |t.writes[0]|));
      assert t == Trace([t.writes[0]] + rest.writes, rest.ok);
      DeliverStep(t.writes[0], rest, t', room);
    }
  }

  lemma DeliverFirst(w: seq<byte>, rest: Trace, room: Option<nat>)
    requires room.None? || |w| <= room.value
    ensures var d := Deliver(rest, Less(room, |w|));
            Deliver(Trace([w] + rest.writes, rest.ok), room) == Delivery(w + d.sent, d.err)
  {
    var t := Trace([w] + rest.writes, rest.ok);
    assert t.writes[0] == w && Trace(t.writes[1..], t.ok) == rest;
  }

  lemma ThenFirst(w: seq<byte>, rest: Trace, t': Trace)
    ensures Trace([w] + rest.writes, rest.ok).Then(t') == Trace([w] + rest.Then(t').writes, rest.Then(t').ok)
  {
    assert [w] + rest.writes + t'.writes == [w] + (rest.writes + t'.writes);
  }

  lemma BothFirst(w: seq<byte>, a: Delivery, t': Trace, room: Option<nat>)
    requires room.None? || |w| + |a.sent| <= room.value
    ensures var c := Both(a, t', Less(room, |w|));
            Both(Delivery(w + a.sent, a.err), t', room) == Delivery(w + c.sent, c.err)
  {
    hide Deliver;
    assert Less(Less(room, |w|), |a.sent|) == Less(room, |w + a.sent|);
    var b := Deliver(t', Less(room, |w + a.sent|));
    assert w + (a.sent + b.sent) == w + a.sent + b.sent;
  }

  lemma DeliverStep(w: seq<byte>, rest: Trace, t': Trace, room: Option<nat>)
    requires room.None? || |w| <= room.value
    requires Deliver(rest.Then(t'), Less(room, |w|)) == Both(Deliver(rest, Less(room, |w|)), t', Less(room, |w|))
    ensures var t := Trace([w] + rest.writes, rest.ok);
            Deliver(t.Then(t'), room) == Both(Deliver(t, room), t', room)
  {
    hide Deliver, Both;
    var a := Deliver(rest, Less(room, |w|));
    DeliverFirst(w, rest, room);
    DeliverFirst(w, rest.Then(t'), room);
    ThenFirst(w, rest, t');
    DeliverWithin(rest, Less(room, |w|));
    BothFirst(w, a, t', room);
  }

  lemma {:induction false} DeliverWithin(t: Trace, room: Option<nat>)
    ensures room.Some? ==> |Deliver(t, room).sent| <= room.value
    decreases |t.writes|
  {
    if t.writes != [] && room.Some? && |t.writes[0]| <= room.value {
      DeliverWithin(Trace(t.writes[1..], t.ok), Less(room, |t.writes[0]|));
    }
  }

  /** A growing buffer keeps everything. */
  lemma {:induction false} GrowingKeepsAll(t: Trace)
    ensures Deliver(t, None) == Delivery(Flatten(t.writes), if t.ok then None else Some(StringTooLong))
    decreases |t.writes|
  {
    if t.writes != [] {
      GrowingKeepsAll(Trace(t.writes[1..], t.ok));
    }
  }

  /** A fixed buffer with room for the whole write does what a growing one does. */
  lemma {:induction false} FixedMatchesGrowing(t: Trace, room: nat)
    requires |Flatten(t.writes)| <= room
    ensures Deliver(t, Some(room)) == Deliver(t, None)
    decreases |t.writes|
  {
    if t.writes != [] {
      FixedMatchesGrowing(Trace(t.writes[1..], t.ok), room - |t.writes[0]|);
    }
  }

  /** Without that room it throws, and keeps the calls before the first that does not fit. */
  lemma {:induction false} FixedStopsAtCall(t: Trace, room: nat) returns (i: nat)
    requires |Flatten(t.writes)| > room
    ensures i < |t.writes|
    ensures Deliver(t, Some(room)) == Delivery(Flatten(t.writes[..i]), Some(NotEnoughBuff))
    ensures |Flatten(t.writes[..i])| <= room < |Flatten(t.writes[..i + 1])|
    ensures Flatten(t.writes[..i]) <= Flatten(t.writes)
    decreases |t.writes|
  {
    var w := t.writes[0];
    if |w| > room {
      i := 0;
      assert t.writes[..1] == [w];
      CallYields(w);
    } else {
      var rest := Trace(t.writes[1..], t.ok);
      var k := FixedStopsAtCall(rest, room - |w|);
      i := k + 1;
      assert t.writes[..i] == [w] + rest.writes[..k];
      assert t.writes[..i + 1] == [w] + rest.writes[..k + 1];
    }
  }

  /** For a value: byte for byte the growing buffer's output if it fits, else an exception and a prefix
      of that output. */
  lemma FixedBufferOutput(v: Value, tag: byte, room: nat)
    requires Fits(v)
    ensures |Enc(v, tag)| <= room ==> Deliver(Emit(v, tag), Some(room)) == Delivery(Enc(v, tag), None)
    ensures |Enc(v, tag)| > room ==>
              var d := Deliver(Emit(v, tag), Some(room));
              d.err == Some(NotEnoughBuff) && d.sent < Enc(v, tag) && |d.sent| <= room
  {
    hide Enc, Emit, Flatten, Deliver;
    EmitYields(v, tag);
    GrowingKeepsAll(Emit(v, tag));
    if |Enc(v, tag)| <= room {
      FixedMatchesGrowing(Emit(v, tag), room);
    } else {
      var i := FixedStopsAtCall(Emit(v, tag), room);
    }
  }

  // BufferWriter's memory: contents, capacity, the bytes growth has copied, the longest length reached.

  datatype Usage = Usage(contents: seq<byte>, capacity: nat, copied: nat, peak: nat)

  datatype BufferOp = Append(s: seq<byte>) | Reset

  const FRESH := Usage([], 0, 0, 0)

  function Apply(u: Usage, op: BufferOp): Usage
  {
    match op
    case Reset => u.(contents := [])
    case Append(s) =>
      var n := |u.contents| + |s|;
      var grow := u.capacity < n;
      Usage(u.contents + s, if grow then 2 * n else u.capacity,
            if grow then u.copied + |u.contents| else u.copied, if n > u.peak then n else u.peak)
  }

  function Run(u: Usage, ops: seq<BufferOp>): Usage
    decreases |ops|
  {
    if ops == [] then u else Run(Apply(u, ops[0]), ops[1..])
  }

  /** The appends after the last reset, in order. */
  function SinceReset(ops: seq<BufferOp>, before: seq<byte>): seq<byte>
    decreases |ops|
  {
    if ops == [] then before
    else match ops[0]
      case Reset => SinceReset(ops[1..], [])
      case Append(s) => SinceReset(ops[1..], before + s)
  }

  /** Growth has copied no more than the capacity, which is no more than twice the longest length. */
  predicate Economical(u: Usage)
  {
    |u.contents| <= u.capacity && |u.contents| <= u.peak && u.copied <= u.capacity <= 2 * u.peak
  }

  lemma {:induction false} GrowthIsLinear(u: Usage, ops: seq<BufferOp>)
    requires Economical(u)
    ensures Economical(Run(u, ops))
    ensures Run(u, ops).contents == SinceReset(ops, u.contents)
    decreases |ops|
  {
    if ops != [] {
      GrowthIsLinear(Apply(u, ops[0]), ops[1..]);
    }
  }
}
