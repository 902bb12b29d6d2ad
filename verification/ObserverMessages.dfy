/** The messages of the Observer protocol: generated structs over the codec. */
module ObserverMessages {
  import opened Wrappers
  import opened Bytes
  import opened JceValue
  import opened JceIntegers
  import opened JceReader
  import opened JceSchema
  import opened JceLookup
  import opened JceRecords
  import opened JceTruncation
  import opened JceWriting
  import opened JceInputStream
  import opened JceOutputStream

  // E_CTRL_TYPE
  const HELLO := 0
  const FILE_PATH := 1
  const REQ_ON_DEL := 2

  /** The sequence number every sender uses: the string "0". */
  const SEQ_ZERO: seq<byte> := [48]

  // What writeTo writes.

  function ControlFields(ctrl: int, s: seq<byte>, data: seq<byte>): seq<Field>
  {
    [Field(0, IntV(ctrl)), Field(1, StringV(s)), Field(2, BytesV(data))]
  }

  function StringFields(s: seq<byte>): seq<Field>
  {
    [Field(0, StringV(s))]
  }

  // What readFrom reads. resetDefautlt clears sSeq; vbData keeps what it had.

  function ControlSlots(data: seq<byte>): seq<Slot>
  {
    [Slot(0, Int32T, false, IntV(HELLO)), Slot(1, StringT, false, StringV([])), Slot(2, BytesT, false, BytesV(data))]
  }

  const STRING_SLOTS: seq<Slot> := [Slot(0, StringT, false, StringV([]))]

  function EncControl(ctrl: int, s: seq<byte>, data: seq<byte>): seq<byte>
  {
    EncFields(ControlFields(ctrl, s, data))
  }

  function EncString(s: seq<byte>): seq<byte>
  {
    EncFields(StringFields(s))
  }

  /** A record a generated struct decodes to. */
  predicate IsControl(fs: seq<Field>)
  {
    |fs| == 3 && fs[0].val.IntV? && fs[1].val.StringV? && fs[2].val.BytesV? &&
    fs == ControlFields(fs[0].val.n, fs[1].val.s, fs[2].val.b)
  }

  predicate IsString(fs: seq<Field>)
  {
    |fs| == 1 && fs[0].val.StringV? && fs == StringFields(fs[0].val.s)
  }

  lemma SlotsCons(buf: seq<byte>, cur: nat, slots: seq<Slot>)
    requires slots != []
    ensures var g := ReadSlot(buf, cur, slots[0]);
            && (g.Bad? ==> ReadSlots(buf, cur, slots) == Bad(g.e))
            && (g.Got? ==>
                  var r := ReadSlots(buf, g.cur, slots[1..]);
                  && (r.Bad? ==> ReadSlots(buf, cur, slots) == Bad(r.e))
                  && (r.Got? ==> ReadSlots(buf, cur, slots) == Got([g.v] + r.v, r.cur)))
  {
    hide ReadSlot;
  }

  lemma SlotsEnd(buf: seq<byte>, cur: nat)
    ensures ReadSlots(buf, cur, []) == Got([], cur)
  {
  }

  /** The fields read so far and the reads to come make up the readFrom. */
  ghost predicate ReadOn(buf: seq<byte>, cur0: nat, slots: seq<Slot>, fs: seq<Field>, cur: nat)
    requires |fs| <= |slots|
  {
    var r := ReadSlots(buf, cur, slots[|fs|..]);
    ReadSlots(buf, cur0, slots) == if r.Bad? then r else Got(fs + r.v, r.cur)
  }

  lemma ReadOnStarts(buf: seq<byte>, cur: nat, slots: seq<Slot>)
    ensures ReadOn(buf, cur, slots, [], cur)
  {
    hide ReadSlots;
    assert slots[0..] == slots;
    var r := ReadSlots(buf, cur, slots);
    assert r.Got? ==> [] + r.v == r.v;
  }

  lemma ReadOnGoes(buf: seq<byte>, cur0: nat, slots: seq<Slot>, fs: seq<Field>, cur: nat)
    requires |fs| < |slots| && ReadOn(buf, cur0, slots, fs, cur)
    ensures var g := ReadSlot(buf, cur, slots[|fs|]);
            && (g.Bad? ==> ReadSlots(buf, cur0, slots) == Bad(g.e))
            && (g.Got? ==> ReadOn(buf, cur0, slots, fs + [g.v], g.cur))
  {
    hide ReadSlots, ReadSlot;
    var rest := slots[|fs|..];
    SlotsCons(buf, cur, rest);
    assert rest[1..] == slots[|fs| + 1..];
    var g := ReadSlot(buf, cur, slots[|fs|]);
    if g.Got? {
      var r := ReadSlots(buf, g.cur, rest[1..]);
      assert r.Got? ==> fs + ([g.v] + r.v) == (fs + [g.v]) + r.v;
    }
  }

  lemma ReadOnEnds(buf: seq<byte>, cur0: nat, slots: seq<Slot>, fs: seq<Field>, cur: nat)
    requires |fs| == |slots| && ReadOn(buf, cur0, slots, fs, cur)
    ensures ReadSlots(buf, cur0, slots) == Got(fs, cur)
  {
    hide ReadSlots;
    assert slots[|fs|..] == [];
    SlotsEnd(buf, cur);
    assert fs + [] == fs;
  }

  lemma ControlSlotsAre(data: seq<byte>)
    ensures var slots := ControlSlots(data);
            && |slots| == 3 && slots[0] == Slot(0, Int32T, false, IntV(HELLO))
            && slots[1] == Slot(1, StringT, false, StringV([])) && slots[2] == Slot(2, BytesT, false, BytesV(data))
  {
  }

  /** What a read delivers is what its slot reads, and of the slot's kind. */
  lemma SlotDelivered(buf: seq<byte>, cur: nat, slot: Slot, v: Value, err: Option<Error>, to: nat)
    requires Delivered(Read(buf, cur, slot.ty, slot.tag), slot.required, slot.default, v, err, to)
    ensures err.Some? ==> ReadSlot(buf, cur, slot) == Bad(err.value)
    ensures err == None ==> ReadSlot(buf, cur, slot) == Got(Field(slot.tag, v), to)
    ensures slot.ty == Int32T && slot.default.IntV? ==> v.IntV?
    ensures slot.ty == StringT && slot.default.StringV? ==> v.StringV?
    ensures slot.ty == BytesT && slot.default.BytesV? ==> v.BytesV?
  {
    hide Read;
    ReadKinds(buf, cur, slot.tag);
    BytesKind(buf, cur, slot.tag);
  }

  /** A string or a byte vector read by its own overload is one. */
  lemma ReadKinds(buf: seq<byte>, cur: nat, tag: byte)
    ensures var r := Read(buf, cur, StringT, tag); r.Got? && r.v.Some? ==> r.v.value.StringV?
    ensures var r := Read(buf, cur, Int32T, tag); r.Got? && r.v.Some? ==> r.v.value.IntV?
  {
    hide SkipToTag, PeekHead, ReadIntBody, Unwire;
  }

  lemma {:induction false} CharItemsKind(buf: seq<byte>, cur: nat, n: nat, acc: seq<byte>)
    ensures var r := ReadCharItems(buf, cur, n, acc); r.Got? ==> r.v.BytesV?
    decreases n
  {
    hide ReadInt;
    if n > 0 {
      var r := ReadInt(buf, cur, 1, 0);
      if r.Done? && r.v.Some? {
        CharItemsKind(buf, r.cur, n - 1, acc + [Unsigned(r.v.value, 1)]);
      }
    }
  }

  lemma BytesKind(buf: seq<byte>, cur: nat, tag: byte)
    ensures var r := Read(buf, cur, BytesT, tag); r.Got? && r.v.Some? ==> r.v.value.BytesV?
  {
    hide SkipToTag, PeekHead, ReadSize, ReadCharItems;
    forall c, n
      ensures ReadCharItems(buf, c, n, []).Got? ==> ReadCharItems(buf, c, n, []).v.BytesV?
    {
      CharItemsKind(buf, c, n, []);
    }
  }

  /** Members that are absent: type Hello, an empty sequence number, the old data; and an empty string. */
  lemma AbsentMembers(data: seq<byte>)
    ensures ReadSlots([], 0, ControlSlots(data)) ==
            Got([Field(0, IntV(0)), Field(1, StringV([])), Field(2, BytesV(data))], 0)
    ensures ReadSlots([], 0, STRING_SLOTS) == Got([Field(0, StringV([]))], 0)
  {
    hide ReadSlots;
    var slots := ControlSlots(data);
    AbsentSlots([slots[0], slots[1], slots[2]]);
    AbsentSlots(STRING_SLOTS);
    assert slots == [slots[0], slots[1], slots[2]];
    DefaultsOf(slots);
    DefaultsOf(STRING_SLOTS);
  }

  lemma DefaultsOf(slots: seq<Slot>)
    ensures |slots| == 1 ==> Defaults(slots) == [Field(slots[0].tag, slots[0].default)]
    ensures |slots| == 3 ==>
              Defaults(slots) == [Field(slots[0].tag, slots[0].default), Field(slots[1].tag, slots[1].default),
                                  Field(slots[2].tag, slots[2].default)]
  {
    if |slots| == 1 {
      assert slots[1..] == [];
    } else if |slots| == 3 {
      assert slots[1..][1..][1..] == [];
      assert Defaults(slots[1..][1..]) == [Field(slots[2].tag, slots[2].default)] + [];
    }
  }

  lemma {:induction false} AbsentSlots(slots: seq<Slot>)
    requires AllOptional(slots)
    ensures ReadSlots([], 0, slots) == Got(Defaults(slots), 0)
    decreases |slots|
  {
    hide ReadSlot;
    if slots != [] {
      AbsentSlots(slots[1..]);
      AbsentSlot(slots[0]);
    }
  }

  lemma AbsentSlot(slot: Slot)
    requires !slot.required
    ensures ReadSlot([], 0, slot) == Got(Field(slot.tag, slot.default), 0)
  {
  }

  lemma ControlKinds(buf: seq<byte>, data: seq<byte>)
    ensures var r := ReadSlots(buf, 0, ControlSlots(data)); r.Got? ==> IsControl(r.v)
  {
    hide Read, ReadSlots;
    var slots := ControlSlots(data);
    SlotsCons(buf, 0, slots);
    ReadKinds(buf, 0, 0);
    var g0 := ReadSlot(buf, 0, slots[0]);
    if g0.Got? {
      assert slots[1..][1..] == slots[2..] && slots[2..][1..] == [];
      SlotsCons(buf, g0.cur, slots[1..]);
      ReadKinds(buf, g0.cur, 1);
      var g1 := ReadSlot(buf, g0.cur, slots[1]);
      if g1.Got? {
        SlotsCons(buf, g1.cur, slots[2..]);
        BytesKind(buf, g1.cur, 2);
        var g2 := ReadSlot(buf, g1.cur, slots[2]);
        if g2.Got? {
          SlotsEnd(buf, g2.cur);
          assert [g0.v] + ([g1.v] + ([g2.v] + [])) == [g0.v, g1.v, g2.v];
        }
      }
    }
  }

  lemma StringKinds(buf: seq<byte>)
    ensures var r := ReadSlots(buf, 0, STRING_SLOTS); r.Got? ==> IsString(r.v)
  {
    hide Read;
    SlotsCons(buf, 0, STRING_SLOTS);
    ReadKinds(buf, 0, 0);
    var g := ReadSlot(buf, 0, STRING_SLOTS[0]);
    if g.Got? {
      SlotsEnd(buf, g.cur);
      assert [g.v] + [] == [g.v];
    }
  }

  /** A buffer decoded into a ControlMsg whose vbData held `data`. */
  function DecControl(buf: seq<byte>, data: seq<byte>): (r: Got<seq<Field>>)
    ensures r.Got? ==> IsControl(r.v)
  {
    ControlKinds(buf, data);
    ReadSlots(buf, 0, ControlSlots(data))
  }

  /** A buffer decoded into a FilePath or a ReqOnDel. */
  function DecString(buf: seq<byte>): (r: Got<seq<Field>>)
    ensures r.Got? ==> IsString(r.v)
  {
    StringKinds(buf);
    ReadSlots(buf, 0, STRING_SLOTS)
  }

  // Round trips and prefixes.

  predicate Sendable(ctrl: int, s: seq<byte>, data: seq<byte>)
  {
    FitsSigned(ctrl, 4) && |s| <= MAX_STRING_LENGTH && |data| < 0x8000_0000
  }

  lemma ControlIsWellFormed(ctrl: int, s: seq<byte>, data: seq<byte>)
    requires Sendable(ctrl, s, data)
    ensures var fs := ControlFields(ctrl, s, data);
            FitFields(fs) && OrderedFields(fs) && Ascending(fs) && ConformFields(ControlSlots([]), fs)
    ensures AscendingSlots(ControlSlots([])) && OrderedSlots(ControlSlots([])) && AllOptional(ControlSlots([]))
  {
    Powers();
    var fs, slots := ControlFields(ctrl, s, data), ControlSlots([]);
    var f1, f2 := fs[1], fs[2];
    assert fs[1..] == [f1, f2] && [f1, f2][1..] == [f2] && [f2][1..] == [];
    assert Fits(IntV(ctrl)) && Fits(StringV(s)) && Fits(BytesV(data));
    assert Ordered(IntV(ctrl)) && Ordered(StringV(s)) && Ordered(BytesV(data));
    assert FitsField(fs[0]) && FitsField(f1) && FitsField(f2);
    assert OrderedField(fs[0]) && OrderedField(f1) && OrderedField(f2);
    FieldsCons(fs[0], fs);
    FieldsCons(f1, [f1, f2]);
    FieldsCons(f2, [f2]);
    var t1, t2 := slots[1], slots[2];
    assert slots[1..] == [t1, t2] && [t1, t2][1..] == [t2] && [t2][1..] == [];
  }

  lemma FieldsCons(f: Field, fs: seq<Field>)
    requires fs != [] && fs[0] == f
    ensures FitFields(fs[1..]) && FitsField(f) ==> FitFields(fs)
    ensures OrderedFields(fs[1..]) && OrderedField(f) ==> OrderedFields(fs)
    ensures FitFields([]) && OrderedFields([])
  {
  }

  lemma ControlRoundTrip(ctrl: int, s: seq<byte>, data: seq<byte>)
    requires Sendable(ctrl, s, data)
    ensures DecControl(EncControl(ctrl, s, data), []).Got?
    ensures DecControl(EncControl(ctrl, s, data), []).v == ControlFields(ctrl, s, data)
  {
    hide ReadSlots, EncFields, ConformFields, FitFields, OrderedFields, OrderedSlots, ControlSlots, ControlFields;
    ControlIsWellFormed(ctrl, s, data);
    RecordRoundTrip(ControlSlots([]), ControlFields(ctrl, s, data));
  }

  lemma StringRoundTrip(s: seq<byte>)
    requires |s| <= MAX_STRING_LENGTH
    ensures DecString(EncString(s)).Got? && DecString(EncString(s)).v == StringFields(s)
  {
    hide ReadSlots, EncFields;
    var fs := StringFields(s);
    assert fs[1..] == [] && STRING_SLOTS[1..] == [];
    assert Fits(StringV(s)) && Ordered(StringV(s));
    assert FitsField(fs[0]) && OrderedField(fs[0]);
    FieldsCons(fs[0], fs);
    RecordRoundTrip(STRING_SLOTS, fs);
  }

  /** The first n members as sent, the others as constructed. */
  function Leading(ctrl: int, s: seq<byte>, data: seq<byte>, n: nat): seq<Field>
  {
    ControlFields(if n > 0 then ctrl else HELLO, if n > 1 then s else [], if n > 2 then data else [])
  }

  /** Decoding a prefix of an encoded message into a fresh object either throws or gives the message's
      leading members and defaults after them; it does the second exactly on a field boundary. */
  lemma ControlPrefix(ctrl: int, s: seq<byte>, data: seq<byte>, k: nat)
    requires Sendable(ctrl, s, data) && k <= |EncControl(ctrl, s, data)|
    ensures var fs := ControlFields(ctrl, s, data);
            var g := DecControl(EncControl(ctrl, s, data)[..k], []);
            && (g.Got? <==> exists n :: 0 <= n <= 3 && k == |EncFields(fs[..n])|)
            && (g.Got? ==> exists n :: 0 <= n <= 3 && k == |EncFields(fs[..n])| && g.v == Leading(ctrl, s, data, n))
  {
    hide ReadSlots, EncFields, ConformFields, FitFields, OrderedFields, OrderedSlots;
    hide AllOptional, Whole, Over, Defaults;
    var fs, slots := ControlFields(ctrl, s, data), ControlSlots([]);
    ControlIsWellFormed(ctrl, s, data);
    PrefixDecoding(slots, fs, k);
    WholeSplits(fs, k);
    var n := Whole(fs, k);
    assert n < 3 ==> fs[n].tag < 15;
    if CleanCut(fs, k) {
      ControlDefaults(n);
      assert fs[..n] + Defaults(slots[n..]) == Leading(ctrl, s, data, n);
    }
    forall i | 0 <= i <= 3 && k == |EncFields(fs[..i])|
      ensures Over(fs, k) == 0
    {
      BoundaryIsClean(fs, i);
    }
  }

  lemma ControlDefaults(n: nat)
    requires n <= 3
    ensures var d := Defaults(ControlSlots([])[n..]);
            && |d| == 3 - n
            && (n <= 0 ==> d[0] == Field(0, IntV(HELLO)))
            && (n <= 1 ==> d[1 - n] == Field(1, StringV([])))
            && (n <= 2 ==> d[2 - n] == Field(2, BytesV([])))
  {
    var slots := ControlSlots([]);
    var t1, t2 := slots[1], slots[2];
    assert slots[0..] == slots && slots[1..] == [t1, t2] && slots[2..] == [t2] && slots[3..] == [];
    assert [t1, t2][1..] == [t2] && [t2][1..] == [];
  }

  lemma {:induction false} WholeSplits(fs: seq<Field>, k: nat)
    requires k <= |EncFields(fs)|
    ensures k == |EncFields(fs[..Whole(fs, k)])| + Over(fs, k)
    decreases |fs|
  {
    hide EncField;
    if fs == [] {
    } else if k < |EncField(fs[0])| {
      assert fs[..0] == [];
    } else {
      var k' := k - |EncField(fs[0])|;
      WholeSplits(fs[1..], k');
      var n := Whole(fs[1..], k');
      assert fs[..1 + n][0] == fs[0] && fs[..1 + n][1..] == fs[1..][..n];
    }
  }

  lemma {:induction false} BoundaryIsClean(fs: seq<Field>, i: nat)
    requires i <= |fs|
    ensures Over(fs, |EncFields(fs[..i])|) == 0
    decreases |fs|
  {
    hide Enc;
    if i > 0 {
      assert fs[..i][0] == fs[0] && fs[..i][1..] == fs[1..][..i - 1];
      BoundaryIsClean(fs[1..], i - 1);
    } else if fs != [] {
      assert |EncField(fs[0])| >= 1;
    }
  }

  class ControlMsg {
    var ctrlType: int
    var seqNo: seq<byte>
    var data: seq<byte>

    function Fields(): seq<Field>
      reads this
    {
      ControlFields(ctrlType, seqNo, data)
    }

    constructor ()
      ensures ctrlType == HELLO && seqNo == [] && data == []
    {
      ctrlType, seqNo, data := HELLO, [], [];
    }

    method WriteTo(os: OutputStream) returns (err: Option<WriteError>)
      requires os.Valid() && this !in os.Frame() && FitsSigned(ctrlType, 4) && |seqNo| < 0x1_0000_0000
      modifies os.Frame()
      ensures os.Valid() && fresh(os.Frame() - old(os.Frame()))
      ensures os.Wrote(old(os.Contents()), old(os.Room()), EmitFields(Fields()), err)
      ensures Fields() == old(Fields())
    {
      hide Deliver, EmitInt, EmitString, EmitHead, FitsSigned, EmitFields;
      hide os.Wrote;
      ghost var c, r := os.Contents(), os.Room();
      ghost var a, b, d := EmitInt(ctrlType, 0), EmitString(seqNo, 1), Emit(BytesV(data), 2);
      ControlTrace(ctrlType, seqNo, data);
      err := os.WriteInt32(ctrlType, 0);
      if err.Some? {
        os.Stops(c, r, a, b.Then(d), err);
        return;
      }
      ghost var c1, r1 := os.Contents(), os.Room();
      os.WroteMeans(c, r, a, err);
      err := os.WriteString(seqNo, 1);
      if err.Some? {
        os.Stops(c1, r1, b, d, err);
        os.Continues(c, r, a, c1, r1, b.Then(d), err);
        return;
      }
      ghost var c2, r2 := os.Contents(), os.Room();
      os.WroteMeans(c1, r1, b, err);
      err := os.WriteBytes(data, 2);
      os.Continues(c1, r1, b, c2, r2, d, err);
      os.Continues(c, r, a, c1, r1, b.Then(d), err);
    }

    method ReadFrom(s: InputStream) returns (err: Option<Error>)
      modifies this, s`cur, s`peeks
      ensures err == None ==> ReadSlots(s.buf, old(s.cur), ControlSlots(old(data))) == Got(Fields(), s.cur)
      ensures err.Some? ==> ReadSlots(s.buf, old(s.cur), ControlSlots(old(data))) == Bad(err.value)
    {
      hide JceSchema.Read, JceSchema.ReadSlots, JceSchema.ReadSlot, Delivered, ReadOn, ControlSlots;
      ghost var cur0, slots := s.cur, ControlSlots(data);
      ControlSlotsAre(data);
      ReadOnStarts(s.buf, cur0, slots);
      seqNo := [];
      var v;
      ghost var c, got := s.cur, [];
      v, err := s.Read(Int32T, IntV(HELLO), 0, false);
      SlotDelivered(s.buf, c, slots[0], v, err, s.cur);
      ReadOnGoes(s.buf, cur0, slots, got, c);
      if err.Some? {
        return;
      }
      ctrlType := v.n;
      c, got := s.cur, got + [Field(0, v)];
      v, err := s.Read(StringT, StringV(seqNo), 1, false);
      SlotDelivered(s.buf, c, slots[1], v, err, s.cur);
      ReadOnGoes(s.buf, cur0, slots, got, c);
      if err.Some? {
        return;
      }
      seqNo := v.s;
      c, got := s.cur, got + [Field(1, v)];
      v, err := s.Read(BytesT, BytesV(data), 2, false);
      SlotDelivered(s.buf, c, slots[2], v, err, s.cur);
      ReadOnGoes(s.buf, cur0, slots, got, c);
      if err.Some? {
        return;
      }
      data := v.b;
      assert got + [Field(2, v)] == Fields();
      ReadOnEnds(s.buf, cur0, slots, Fields(), s.cur);
    }
  }

  lemma ControlTrace(ctrl: int, s: seq<byte>, data: seq<byte>)
    ensures EmitFields(ControlFields(ctrl, s, data)) ==
            EmitInt(ctrl, 0).Then(EmitString(s, 1).Then(Emit(BytesV(data), 2)))
  {
    hide EmitInt, EmitString, EmitHead, Emit;
    var fs := ControlFields(ctrl, s, data);
    var f0, f1, f2 := fs[0], fs[1], fs[2];
    assert fs == [f0] + [f1, f2] && [f1, f2] == [f1] + [f2] && [f2] == [f2] + [];
    assert fs[1..] == [f1, f2] && [f1, f2][1..] == [f2] && [f2][1..] == [];
    EmitFieldsCons(f0, [f1, f2]);
    EmitFieldsCons(f1, [f2]);
    EmitFieldsCons(f2, []);
    ThenNothing(Emit(BytesV(data), 2));
    EmitScalars(ctrl, s);
  }

  lemma EmitFieldsCons(f: Field, fs: seq<Field>)
    ensures EmitFields([f] + fs) == EmitField(f).Then(EmitFields(fs))
  {
    hide EmitField;
    assert ([f] + fs)[1..] == fs;
  }

  lemma EmitScalars(ctrl: int, s: seq<byte>)
    ensures Emit(IntV(ctrl), 0) == EmitInt(ctrl, 0)
    ensures forall t: byte :: Emit(StringV(s), t) == EmitString(s, t)
  {
  }

  /** FilePath and ReqOnDel: one string under tag 0. */
  class StringMsg {
    var text: seq<byte>

    constructor ()
      ensures text == []
    {
      text := [];
    }

    method WriteTo(os: OutputStream) returns (err: Option<WriteError>)
      requires os.Valid() && this !in os.Frame() && |text| < 0x1_0000_0000
      modifies os.Frame()
      ensures os.Valid() && fresh(os.Frame() - old(os.Frame()))
      ensures os.Wrote(old(os.Contents()), old(os.Room()), EmitFields(StringFields(text)), err)
      ensures text == old(text)
    {
      StringTrace(text);
      hide EmitString, EmitFields, Deliver;
      err := os.WriteString(text, 0);
    }

    method ReadFrom(s: InputStream) returns (err: Option<Error>)
      modifies this, s`cur, s`peeks
      ensures err == None ==> ReadSlots(s.buf, old(s.cur), STRING_SLOTS) == Got(StringFields(text), s.cur)
      ensures err.Some? ==> ReadSlots(s.buf, old(s.cur), STRING_SLOTS) == Bad(err.value)
    {
      hide JceSchema.Read;
      text := [];
      SlotsCons(s.buf, s.cur, STRING_SLOTS);
      ReadKinds(s.buf, s.cur, 0);
      var v;
      v, err := s.Read(StringT, StringV([]), 0, false);
      if err == None {
        text := v.s;
        assert ReadSlots(s.buf, s.cur, STRING_SLOTS[1..]) == Got([], s.cur);
        assert [Field(0, v)] + [] == StringFields(text);
      }
    }
  }

  lemma StringTrace(s: seq<byte>)
    ensures EmitFields(StringFields(s)) == EmitString(s, 0)
  {
    hide EmitString;
    assert StringFields(s)[1..] == [];
    ThenNothing(EmitString(s, 0));
    EmitScalars(0, s);
  }
}
