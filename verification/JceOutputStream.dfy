/** JceOutputStream over its two buffers, written in place. */
module JceOutputStream {
  import opened Wrappers
  import opened Bytes
  import opened JceValue
  import opened JceIntegers
  import opened JceWriting
  import opened JceWire

  /** The buffer that grows. */
  class BufferWriter {
    var buf: array<byte>
    var len: nat
    ghost var copied: nat
    ghost var peak: nat

    ghost predicate Valid()
      reads this, buf
    {
      len <= buf.Length && Economical(Used())
    }

    ghost function Used(): Usage
      requires len <= buf.Length
      reads this, buf
    {
      Usage(buf[..len], buf.Length, copied, peak)
    }

    constructor ()
      ensures Valid() && Used() == FRESH && fresh(buf)
    {
      buf, len, copied, peak := new byte[0], 0, 0, 0;
    }

    /** Make room for n bytes: twice that much if there is less. */
    method Reserve(n: nat)
      requires len <= buf.Length
      modifies this
      ensures len == old(len) && len <= buf.Length && buf[..len] == old(buf[..len]) && peak == old(peak)
      ensures if old(buf.Length) < n then fresh(buf) && buf.Length == 2 * n && copied == old(copied) + len
              else buf == old(buf) && copied == old(copied)
    {
      if buf.Length < n {
        var p := new byte[2 * n];
        forall i | 0 <= i < len {
          p[i] := buf[i];
        }
        copied := copied + len;
        buf := p;
      }
    }

    method Reset()
      requires Valid()
      modifies this
      ensures Valid() && buf == old(buf) && Used() == Apply(old(Used()), BufferOp.Reset)
    {
      len := 0;
    }

    method WriteBuf(s: seq<byte>)
      requires Valid()
      modifies this, buf
      ensures Valid() && (buf == old(buf) || fresh(buf))
      ensures Used() == Apply(old(Used()), Append(s))
    {
      Reserve(len + |s|);
      Copy(buf, len, s);
      len := len + |s|;
      if len > peak {
        peak := len;
      }
    }

    method GetByteBuffer() returns (s: seq<byte>)
      requires Valid()
      ensures s == Used().contents
    {
      s := buf[..len];
    }
  }

  /** memcpy into a buffer. */
  method Copy(buf: array<byte>, at: nat, s: seq<byte>)
    requires at + |s| <= buf.Length
    modifies buf
    ensures buf[..at + |s|] == old(buf[..at]) + s
    ensures buf[at + |s|..] == old(buf[at + |s|..])
  {
    forall i | 0 <= i < |s| {
      buf[at + i] := s[i];
    }
  }

  /** The buffer set from outside, which never grows. */
  class BufferWriterBuff {
    var buf: array<byte>
    var len: nat

    ghost predicate Valid()
      reads this
    {
      len <= buf.Length
    }

    constructor (b: array<byte>)
      ensures Valid() && buf == b && len == 0
    {
      buf, len := b, 0;
    }

    method Reset()
      modifies this
      ensures Valid() && buf == old(buf) && len == 0
    {
      len := 0;
    }

    method WriteBuf(s: seq<byte>) returns (ok: bool)
      requires Valid()
      modifies this, buf
      ensures Valid() && buf == old(buf) && ok == (old(len) + |s| <= buf.Length)
      ensures buf[..len] == if ok then old(buf[..len]) + s else old(buf[..len])
    {
      if buf.Length < len + |s| {
        return false;
      }
      Copy(buf, len, s);
      len := len + |s|;
      return true;
    }
  }

  /** The stream's base class, chosen by the template argument. */
  datatype Sink = Growing(w: BufferWriter) | Fixed(b: BufferWriterBuff)

  lemma ThenAssociates(a: Trace, b: Trace, c: Trace)
    ensures a.Then(b).Then(c) == a.Then(b.Then(c))
  {
    assert a.writes + b.writes + c.writes == a.writes + (b.writes + c.writes);
  }

  lemma ThenNothing(a: Trace)
    ensures a.Then(NOTHING) == a && NOTHING.Then(a) == a
  {
    assert a.writes + [] == a.writes && [] + a.writes == a.writes;
  }

  class OutputStream {
    const sink: Sink

    ghost function Owner(): set<object>
    {
      if sink.Growing? then {sink.w} else {sink.b}
    }

    ghost function Frame(): set<object>
      reads Owner()
    {
      if sink.Growing? then {sink.w, sink.w.buf} else {sink.b, sink.b.buf}
    }

    ghost predicate Valid()
      reads Owner(), Frame()
    {
      if sink.Growing? then sink.w.Valid() else sink.b.Valid()
    }

    ghost function Contents(): seq<byte>
      requires Valid()
      reads Owner(), Frame()
    {
      if sink.Growing? then sink.w.buf[..sink.w.len] else sink.b.buf[..sink.b.len]
    }

    ghost function Room(): Option<nat>
      requires Valid()
      reads Owner(), Frame()
    {
      if sink.Growing? then None else Some(sink.b.buf.Length - sink.b.len)
    }

    /** From contents c and room r, the write t has been delivered and ended with err. */
    ghost predicate Wrote(c: seq<byte>, r: Option<nat>, t: Trace, err: Option<WriteError>)
      reads Owner(), Frame()
    {
      var d := Deliver(t, r);
      Valid() && Contents() == c + d.sent && Room() == Less(r, |d.sent|) && err == d.err
    }

    constructor OverBuffer(b: array<byte>)
      ensures Valid() && sink.Fixed? && Contents() == [] && Room() == Some(b.Length) && Frame() <= {sink.b, b} &&
              fresh(sink.b)
    {
      var w := new BufferWriterBuff(b);
      sink := Fixed(w);
    }

    constructor ()
      ensures Valid() && sink.Growing? && Contents() == [] && Room() == None && fresh(Frame())
    {
      var w := new BufferWriter();
      sink := Growing(w);
    }

    /** A write that ended normally, and the next one. */
    lemma Continues(c: seq<byte>, r: Option<nat>, t: Trace, c1: seq<byte>, r1: Option<nat>, t': Trace,
                    err: Option<WriteError>)
      requires var d := Deliver(t, r); d.err == None && c1 == c + d.sent && r1 == Less(r, |d.sent|)
      requires Wrote(c1, r1, t', err)
      ensures Wrote(c, r, t.Then(t'), err)
    {
      hide Deliver;
      DeliverThen(t, t', r);
      DeliverWithin(t, r);
      var d, d' := Deliver(t, r), Deliver(t', r1);
      assert c + d.sent + d'.sent == c + (d.sent + d'.sent);
    }

    /** A write that threw: nothing follows it. */
    lemma Stops(c: seq<byte>, r: Option<nat>, t: Trace, t': Trace, err: Option<WriteError>)
      requires err.Some? && Wrote(c, r, t, err)
      ensures Wrote(c, r, t.Then(t'), err)
    {
      hide Deliver;
      DeliverThen(t, t', r);
    }

    /** getBuffer and getLength. */
    method GetBytes() returns (s: seq<byte>)
      requires Valid()
      ensures s == Contents()
    {
      match sink
      case Growing(w) => s := w.GetByteBuffer();
      case Fixed(b) => s := b.buf[..b.len];
    }

    method WriteBuf(s: seq<byte>) returns (err: Option<WriteError>)
      requires Valid()
      modifies Frame()
      ensures Valid() && fresh(Frame() - old(Frame()))
      ensures Wrote(old(Contents()), old(Room()), Call(s), err)
    {
      assert Deliver(Trace([s][1..], true), Less(Room(), |s|)) == Delivery([], None);
      assert s + [] == s;
      match sink
      case Growing(w) =>
        w.WriteBuf(s);
        err := None;
      case Fixed(b) =>
        var ok := b.WriteBuf(s);
        err := if ok then None else Some(NotEnoughBuff);
    }

    method WriteHead(kind: Kind, tag: byte) returns (err: Option<WriteError>)
      requires Valid()
      modifies Frame()
      ensures Valid() && fresh(Frame() - old(Frame()))
      ensures Wrote(old(Contents()), old(Room()), EmitHead(kind, tag), err)
    {
      hide Wrote, Deliver;
      if tag < 15 {
        err := WriteBuf([kind + 16 * tag]);
      } else {
        err := WritePair([kind + 16 * 15], [tag]);
      }
    }

    method WritePair(a: seq<byte>, b: seq<byte>) returns (err: Option<WriteError>)
      requires Valid()
      modifies Frame()
      ensures Valid() && fresh(Frame() - old(Frame()))
      ensures Wrote(old(Contents()), old(Room()), Trace([a, b], true), err)
    {
      hide Deliver;
      ghost var c, r := Contents(), Room();
      err := WriteBuf(a);
      assert Call(a).Then(Call(b)) == Trace([a, b], true);
      if err.Some? {
        Stops(c, r, Call(a), Call(b), err);
        return;
      }
      ghost var c1, r1 := Contents(), Room();
      err := WriteBuf(b);
      Continues(c, r, Call(a), c1, r1, Call(b), err);
    }

    /** A head and one payload. */
    method WriteWord(kind: Kind, tag: byte, payload: seq<byte>) returns (err: Option<WriteError>)
      requires Valid()
      modifies Frame()
      ensures Valid() && fresh(Frame() - old(Frame()))
      ensures Wrote(old(Contents()), old(Room()), EmitHead(kind, tag).Then(Call(payload)), err)
    {
      hide Deliver, Wrote;
      ghost var c, r := Contents(), Room();
      err := WriteHead(kind, tag);
      if err.Some? {
        Stops(c, r, EmitHead(kind, tag), Call(payload), err);
        return;
      }
      ghost var c1, r1 := Contents(), Room();
      WroteMeans(c, r, EmitHead(kind, tag), err);
      err := WriteBuf(payload);
      Continues(c, r, EmitHead(kind, tag), c1, r1, Call(payload), err);
    }

    // Integers: the narrowest overload that holds the number does the writing.

    method WriteChar(n: int, tag: byte) returns (err: Option<WriteError>)
      requires FitsSigned(n, 1)
      requires Valid()
      modifies Frame()
      ensures Valid() && fresh(Frame() - old(Frame()))
      ensures Wrote(old(Contents()), old(Room()), EmitInt(n, tag), err)
    {
      hide Deliver, Wrote, EmitHead;
      if n == 0 {
        err := WriteHead(ZERO_TAG, tag);
      } else {
        assert Pow256(1) == 0x100;
        CharBody(n);
        err := WriteWord(CHAR, tag, [Unsigned(n, 1)]);
      }
    }

    method WriteShort(n: int, tag: byte) returns (err: Option<WriteError>)
      requires FitsSigned(n, 2)
      requires Valid()
      modifies Frame()
      ensures Valid() && fresh(Frame() - old(Frame()))
      ensures Wrote(old(Contents()), old(Room()), EmitInt(n, tag), err)
    {
      hide Deliver, Wrote, EmitHead, Wire;
      Powers();
      if -128 <= n <= 127 {
        err := WriteChar(n, tag);
      } else {
        LowBytes(n, 2);
        err := WriteWord(SHORT, tag, Wire(Unsigned(n, 2), 2));
      }
    }

    method WriteInt32(n: int, tag: byte) returns (err: Option<WriteError>)
      requires FitsSigned(n, 4)
      requires Valid()
      modifies Frame()
      ensures Valid() && fresh(Frame() - old(Frame()))
      ensures Wrote(old(Contents()), old(Room()), EmitInt(n, tag), err)
    {
      hide Deliver, Wrote, EmitHead, Wire;
      Powers();
      if -32768 <= n <= 32767 {
        err := WriteShort(n, tag);
      } else {
        LowBytes(n, 4);
        err := WriteWord(INT32, tag, Wire(Unsigned(n, 4), 4));
      }
    }

    method WriteInt64(n: int, tag: byte) returns (err: Option<WriteError>)
      requires FitsSigned(n, 8)
      requires Valid()
      modifies Frame()
      ensures Valid() && fresh(Frame() - old(Frame()))
      ensures Wrote(old(Contents()), old(Room()), EmitInt(n, tag), err)
    {
      hide Deliver, Wrote, EmitHead, Wire;
      Powers();
      if -0x8000_0000 <= n <= 0x7FFF_FFFF {
        err := WriteInt32(n, tag);
      } else {
        LowBytes(n, 8);
        err := WriteWord(INT64, tag, Wire(Unsigned(n, 8), 8));
      }
    }

    /** Bool is written as Char. */
    method WriteBool(b: bool, tag: byte) returns (err: Option<WriteError>)
      requires Valid()
      modifies Frame()
      ensures Valid() && fresh(Frame() - old(Frame()))
      ensures Wrote(old(Contents()), old(Room()), EmitInt(if b then 1 else 0, tag), err)
    {
      hide Deliver, Wrote, EmitInt;
      assert Pow256(1) == 0x100;
      err := WriteChar(if b then 1 else 0, tag);
    }

    /** UInt8 is written as Short, UInt16 as Int32, UInt32 as Int64. */
    method WriteUInt8(n: nat, tag: byte) returns (err: Option<WriteError>)
      requires n < 0x100
      requires Valid()
      modifies Frame()
      ensures Valid() && fresh(Frame() - old(Frame()))
      ensures Wrote(old(Contents()), old(Room()), EmitInt(n, tag), err)
    {
      hide Deliver, Wrote, EmitInt;
      Powers();
      err := WriteShort(n, tag);
    }

    method WriteUInt16(n: nat, tag: byte) returns (err: Option<WriteError>)
      requires n < 0x1_0000
      requires Valid()
      modifies Frame()
      ensures Valid() && fresh(Frame() - old(Frame()))
      ensures Wrote(old(Contents()), old(Room()), EmitInt(n, tag), err)
    {
      hide Deliver, Wrote, EmitInt;
      Powers();
      err := WriteInt32(n, tag);
    }

    method WriteUInt32(n: nat, tag: byte) returns (err: Option<WriteError>)
      requires n < 0x1_0000_0000
      requires Valid()
      modifies Frame()
      ensures Valid() && fresh(Frame() - old(Frame()))
      ensures Wrote(old(Contents()), old(Room()), EmitInt(n, tag), err)
    {
      hide Deliver, Wrote, EmitInt;
      Powers();
      err := WriteInt64(n, tag);
    }

    /** A string too long throws before anything is written. */
    method WriteString(s: seq<byte>, tag: byte) returns (err: Option<WriteError>)
      requires |s| < 0x1_0000_0000
      requires Valid()
      modifies Frame()
      ensures Valid() && fresh(Frame() - old(Frame()))
      ensures Wrote(old(Contents()), old(Room()), EmitString(s, tag), err)
      ensures |s| < 256 ==> Wrote(old(Contents()), old(Room()), Trace(HeadCalls(6, tag) + [[|s|], s], true), err)
      ensures 256 <= |s| <= 0x640_0000 ==>
                Wrote(old(Contents()), old(Room()), Trace(HeadCalls(7, tag) + [Digits(|s|, 4), s], true), err)
    {
      hide Deliver, Wrote, EmitHead, Wire, Digits, HeadCalls;
      StringCalls(s, tag);
      if |s| > 255 {
        if |s| > MAX_STRING_LENGTH {
          Refuses();
          return Some(StringTooLong);
        }
        err := WriteThree(STRING4, tag, Wire(|s|, 4), s);
      } else {
        err := WriteThree(STRING1, tag, [|s|], s);
      }
    }

    /** A head, a length and the bytes. */
    method WriteThree(kind: Kind, tag: byte, a: seq<byte>, b: seq<byte>) returns (err: Option<WriteError>)
      requires Valid()
      modifies Frame()
      ensures Valid() && fresh(Frame() - old(Frame()))
      ensures Wrote(old(Contents()), old(Room()), EmitHead(kind, tag).Then(Trace([a, b], true)), err)
    {
      hide Deliver, Wrote, EmitHead;
      ghost var c, r := Contents(), Room();
      err := WriteHead(kind, tag);
      if err.Some? {
        Stops(c, r, EmitHead(kind, tag), Trace([a, b], true), err);
        return;
      }
      ghost var c1, r1 := Contents(), Room();
      WroteMeans(c, r, EmitHead(kind, tag), err);
      err := WritePair(a, b);
      Continues(c, r, EmitHead(kind, tag), c1, r1, Trace([a, b], true), err);
    }

    lemma WroteMeans(c: seq<byte>, r: Option<nat>, t: Trace, err: Option<WriteError>)
      requires Valid() && Wrote(c, r, t, err)
      ensures Contents() == c + Deliver(t, r).sent && Room() == Less(r, |Deliver(t, r).sent|) &&
              Deliver(t, r).err == err
    {
    }

    lemma Refuses()
      requires Valid()
      ensures Wrote(Contents(), Room(), Trace([], false), Some(StringTooLong))
    {
      assert Contents() + [] == Contents();
    }

    /** Nothing written is a write that ended. */
    lemma Idle()
      requires Valid()
      ensures Wrote(Contents(), Room(), NOTHING, None)
    {
      assert Contents() + [] == Contents();
    }

    /** Fields captured by readUnknown, written back as they were. */
    method WriteUnknown(s: seq<byte>) returns (err: Option<WriteError>)
      requires Valid()
      modifies Frame()
      ensures Valid() && fresh(Frame() - old(Frame()))
      ensures Wrote(old(Contents()), old(Room()), Call(s), err)
    {
      err := WriteBuf(s);
    }

    // Values of any type.

    method Write(v: Value, tag: byte) returns (err: Option<WriteError>)
      requires InMemory(v)
      requires Valid()
      modifies Frame()
      ensures Valid() && fresh(Frame() - old(Frame()))
      ensures Wrote(old(Contents()), old(Room()), Emit(v, tag), err)
      decreases v, 1
    {
      hide Deliver, Wrote, EmitHead, EmitInt, EmitString, Wire, FitsSigned;
      match v
      case IntV(n) => err := WriteInt64(n, tag);
      case FloatV(bits) => err := WriteWord(FLOAT, tag, Wire(bits, 4));
      case DoubleV(bits) => err := WriteWord(DOUBLE, tag, Wire(bits, 8));
      case StringV(s) => err := WriteString(s, tag);
      case BytesV(b) => err := WriteBytes(b, tag);
      case ListV(items) => err := WriteList(items, tag);
      case MapV(entries) => err := WriteMap(entries, tag);
      case StructV(fields) => err := WriteStruct(fields, tag);
    }

    /** A head and a count. */
    method WriteCount(kind: Kind, tag: byte, n: nat) returns (err: Option<WriteError>)
      requires Valid()
      modifies Frame()
      ensures Valid() && fresh(Frame() - old(Frame()))
      ensures Wrote(old(Contents()), old(Room()), EmitHead(kind, tag).Then(EmitInt(Wrap32(n), 0)), err)
    {
      hide Deliver, Wrote, EmitHead, EmitInt;
      ghost var c, r, t := Contents(), Room(), EmitHead(kind, tag);
      err := WriteHead(kind, tag);
      if err.Some? {
        Stops(c, r, t, EmitInt(Wrap32(n), 0), err);
        return;
      }
      ghost var c1, r1 := Contents(), Room();
      WroteMeans(c, r, t, err);
      err := WriteSize(n);
      Continues(c, r, t, c1, r1, EmitInt(Wrap32(n), 0), err);
    }

    /** Int32 n = size(); write(n, 0). */
    method WriteSize(n: nat) returns (err: Option<WriteError>)
      requires Valid()
      modifies Frame()
      ensures Valid() && fresh(Frame() - old(Frame()))
      ensures Wrote(old(Contents()), old(Room()), EmitInt(Wrap32(n), 0), err)
    {
      hide Deliver, Wrote, EmitHead, EmitInt;
      Powers();
      err := WriteInt32(Wrap32(n), 0);
    }

    /** vector<Char>. */
    method WriteBytes(b: seq<byte>, tag: byte) returns (err: Option<WriteError>)
      requires Valid()
      modifies Frame()
      ensures Valid() && fresh(Frame() - old(Frame()))
      ensures Wrote(old(Contents()), old(Room()), Emit(BytesV(b), tag), err)
    {
      hide Deliver, Wrote, EmitHead, EmitInt;
      ThenAssociates(EmitHead(SIMPLE_LIST, tag), EmitHead(CHAR, 0), EmitInt(Wrap32(|b|), 0));
      ghost var c, r, t := Contents(), Room(),
        EmitHead(SIMPLE_LIST, tag).Then(EmitHead(CHAR, 0).Then(EmitInt(Wrap32(|b|), 0)));
      err := WriteSimpleListHead(|b|, tag);
      if err.Some? {
        Stops(c, r, t, Call(b), err);
        return;
      }
      ghost var c1, r1 := Contents(), Room();
      WroteMeans(c, r, t, err);
      err := WriteBuf(b);
      Continues(c, r, t, c1, r1, Call(b), err);
    }

    method WriteSimpleListHead(n: nat, tag: byte) returns (err: Option<WriteError>)
      requires Valid()
      modifies Frame()
      ensures Valid() && fresh(Frame() - old(Frame()))
      ensures Wrote(old(Contents()), old(Room()),
                    EmitHead(SIMPLE_LIST, tag).Then(EmitHead(CHAR, 0).Then(EmitInt(Wrap32(n), 0))), err)
    {
      hide Deliver, Wrote, EmitHead, EmitInt;
      ghost var c, r, t := Contents(), Room(), EmitHead(SIMPLE_LIST, tag);
      err := WriteHead(SIMPLE_LIST, tag);
      if err.Some? {
        Stops(c, r, t, EmitHead(CHAR, 0).Then(EmitInt(Wrap32(n), 0)), err);
        return;
      }
      ghost var c1, r1 := Contents(), Room();
      WroteMeans(c, r, t, err);
      err := WriteCount(CHAR, 0, n);
      Continues(c, r, t, c1, r1, EmitHead(CHAR, 0).Then(EmitInt(Wrap32(n), 0)), err);
    }

    method WriteList(items: seq<Value>, tag: byte) returns (err: Option<WriteError>)
      requires ItemsInMemory(items)
      requires Valid()
      modifies Frame()
      ensures Valid() && fresh(Frame() - old(Frame()))
      ensures Wrote(old(Contents()), old(Room()), Emit(ListV(items), tag), err)
      decreases items, 1
    {
      hide Deliver, Wrote, Emit, EmitHead, EmitInt, EmitItems;
      ContainersEmit(items, [], tag);
      ghost var c, r, t := Contents(), Room(), EmitHead(LIST, tag).Then(EmitInt(Wrap32(|items|), 0));
      err := WriteCount(LIST, tag, |items|);
      if err.Some? {
        Stops(c, r, t, EmitItems(items), err);
        return;
      }
      ghost var c1, r1 := Contents(), Room();
      WroteMeans(c, r, t, err);
      err := WriteItems(items);
      Continues(c, r, t, c1, r1, EmitItems(items), err);
    }

    method WriteMap(es: seq<Entry>, tag: byte) returns (err: Option<WriteError>)
      requires EntriesInMemory(es)
      requires Valid()
      modifies Frame()
      ensures Valid() && fresh(Frame() - old(Frame()))
      ensures Wrote(old(Contents()), old(Room()), Emit(MapV(es), tag), err)
      decreases es, 1
    {
      hide Deliver, Wrote, Emit, EmitHead, EmitInt, EmitEntries;
      ContainersEmit([], es, tag);
      ghost var c, r, t := Contents(), Room(), EmitHead(MAP, tag).Then(EmitInt(Wrap32(|es|), 0));
      err := WriteCount(MAP, tag, |es|);
      if err.Some? {
        Stops(c, r, t, EmitEntries(es), err);
        return;
      }
      ghost var c1, r1 := Contents(), Room();
      WroteMeans(c, r, t, err);
      err := WriteEntries(es);
      Continues(c, r, t, c1, r1, EmitEntries(es), err);
    }

    /** A struct: its begin, its writeTo, its end. */
    method WriteStruct(fs: seq<Field>, tag: byte) returns (err: Option<WriteError>)
      requires FieldsInMemory(fs)
      requires Valid()
      modifies Frame()
      ensures Valid() && fresh(Frame() - old(Frame()))
      ensures Wrote(old(Contents()), old(Room()), Emit(StructV(fs), tag), err)
      decreases fs, 2
    {
      hide Deliver, Wrote, EmitHead, EmitInt, EmitFields;
      ghost var c, r, t := Contents(), Room(), EmitHead(STRUCT_BEGIN, tag).Then(EmitFields(fs));
      err := WriteStructBody(fs, tag);
      if err.Some? {
        Stops(c, r, t, EmitHead(STRUCT_END, 0), err);
        return;
      }
      ghost var c1, r1 := Contents(), Room();
      WroteMeans(c, r, t, err);
      err := WriteHead(STRUCT_END, 0);
      Continues(c, r, t, c1, r1, EmitHead(STRUCT_END, 0), err);
    }

    method WriteStructBody(fs: seq<Field>, tag: byte) returns (err: Option<WriteError>)
      requires FieldsInMemory(fs)
      requires Valid()
      modifies Frame()
      ensures Valid() && fresh(Frame() - old(Frame()))
      ensures Wrote(old(Contents()), old(Room()), EmitHead(STRUCT_BEGIN, tag).Then(EmitFields(fs)), err)
      decreases fs, 1
    {
      hide Deliver, Wrote, EmitHead, EmitInt, EmitFields;
      ghost var c, r, t := Contents(), Room(), EmitHead(STRUCT_BEGIN, tag);
      err := WriteHead(STRUCT_BEGIN, tag);
      if err.Some? {
        Stops(c, r, t, EmitFields(fs), err);
        return;
      }
      ghost var c1, r1 := Contents(), Room();
      WroteMeans(c, r, t, err);
      err := WriteTo(fs);
      Continues(c, r, t, c1, r1, EmitFields(fs), err);
    }

    method WriteItems(items: seq<Value>) returns (err: Option<WriteError>)
      requires ItemsInMemory(items)
      requires Valid()
      modifies Frame()
      ensures Valid() && fresh(Frame() - old(Frame()))
      ensures Wrote(old(Contents()), old(Room()), EmitItems(items), err)
      decreases items, 0
    {
      hide Deliver, Wrote, Emit, InMemory;
      ghost var c, r, t := Contents(), Room(), NOTHING;
      Idle();
      ThenNothing(EmitItems(items));
      err := None;
      var i := 0;
      while i < |items|
        invariant i <= |items| && err == None && ItemsInMemory(items[i..])
        invariant Valid() && fresh(Frame() - old(Frame())) && Wrote(c, r, t, None)
        invariant t.Then(EmitItems(items[i..])) == EmitItems(items)
      {
        ghost var x := Emit(items[i], 0);
        ghost var c1, r1 := Contents(), Room();
        WroteMeans(c, r, t, None);
        assert items[i..][1..] == items[i + 1..];
        ThenAssociates(t, x, EmitItems(items[i + 1..]));
        err := Write(items[i], 0);
        Continues(c, r, t, c1, r1, x, err);
        t := t.Then(x);
        if err.Some? {
          Stops(c, r, t, EmitItems(items[i + 1..]), err);
          return;
        }
        i := i + 1;
      }
      ThenNothing(t);
    }

    method WriteEntries(es: seq<Entry>) returns (err: Option<WriteError>)
      requires EntriesInMemory(es)
      requires Valid()
      modifies Frame()
      ensures Valid() && fresh(Frame() - old(Frame()))
      ensures Wrote(old(Contents()), old(Room()), EmitEntries(es), err)
      decreases es, 0
    {
      hide Deliver, Wrote, EmitEntry, EntryInMemory;
      ghost var c, r, t := Contents(), Room(), NOTHING;
      Idle();
      ThenNothing(EmitEntries(es));
      err := None;
      var i := 0;
      while i < |es|
        invariant i <= |es| && err == None && EntriesInMemory(es[i..])
        invariant Valid() && fresh(Frame() - old(Frame())) && Wrote(c, r, t, None)
        invariant t.Then(EmitEntries(es[i..])) == EmitEntries(es)
      {
        ghost var x := EmitEntry(es[i]);
        ghost var c1, r1 := Contents(), Room();
        WroteMeans(c, r, t, None);
        assert es[i..][1..] == es[i + 1..];
        ThenAssociates(t, x, EmitEntries(es[i + 1..]));
        err := WriteEntry(es[i]);
        Continues(c, r, t, c1, r1, x, err);
        t := t.Then(x);
        if err.Some? {
          Stops(c, r, t, EmitEntries(es[i + 1..]), err);
          return;
        }
        i := i + 1;
      }
      ThenNothing(t);
    }

    method WriteEntry(e: Entry) returns (err: Option<WriteError>)
      requires EntryInMemory(e)
      requires Valid()
      modifies Frame()
      ensures Valid() && fresh(Frame() - old(Frame()))
      ensures Wrote(old(Contents()), old(Room()), EmitEntry(e), err)
      decreases e, 0
    {
      hide Deliver, Wrote, Emit, InMemory;
      ghost var c, r, t := Contents(), Room(), Emit(e.key, 0);
      err := Write(e.key, 0);
      if err.Some? {
        Stops(c, r, t, Emit(e.val, 1), err);
        return;
      }
      ghost var c1, r1 := Contents(), Room();
      WroteMeans(c, r, t, err);
      err := Write(e.val, 1);
      Continues(c, r, t, c1, r1, Emit(e.val, 1), err);
    }

    /** A struct's writeTo. */
    method WriteTo(fs: seq<Field>) returns (err: Option<WriteError>)
      requires FieldsInMemory(fs)
      requires Valid()
      modifies Frame()
      ensures Valid() && fresh(Frame() - old(Frame()))
      ensures Wrote(old(Contents()), old(Room()), EmitFields(fs), err)
      decreases fs, 0
    {
      hide Deliver, Wrote, EmitField, FieldInMemory;
      ghost var c, r, t := Contents(), Room(), NOTHING;
      Idle();
      ThenNothing(EmitFields(fs));
      err := None;
      var i := 0;
      while i < |fs|
        invariant i <= |fs| && err == None && FieldsInMemory(fs[i..])
        invariant Valid() && fresh(Frame() - old(Frame())) && Wrote(c, r, t, None)
        invariant t.Then(EmitFields(fs[i..])) == EmitFields(fs)
      {
        ghost var x := EmitField(fs[i]);
        ghost var c1, r1 := Contents(), Room();
        WroteMeans(c, r, t, None);
        assert fs[i..][1..] == fs[i + 1..];
        ThenAssociates(t, x, EmitFields(fs[i + 1..]));
        err := WriteField(fs[i]);
        Continues(c, r, t, c1, r1, x, err);
        t := t.Then(x);
        if err.Some? {
          Stops(c, r, t, EmitFields(fs[i + 1..]), err);
          return;
        }
        i := i + 1;
      }
      ThenNothing(t);
    }

    method WriteField(f: Field) returns (err: Option<WriteError>)
      requires FieldInMemory(f)
      requires Valid()
      modifies Frame()
      ensures Valid() && fresh(Frame() - old(Frame()))
      ensures Wrote(old(Contents()), old(Room()), EmitField(f), err)
      decreases f, 0
    {
      hide Deliver, Wrote, Emit, InMemory;
      err := Write(f.val, f.tag);
    }
  }

  lemma CharBody(n: int)
    requires FitsSigned(n, 1) && n != 0
    ensures IntWidth(n) == 1 && IntBody(n) == [Unsigned(n, 1)]
  {
    Powers();
    LowBytes(n, 1);
    assert Little(Unsigned(n, 1), 1) == [Unsigned(n, 1)] + Little(0, 0);
  }
}
