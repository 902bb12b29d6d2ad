/** JceInputStream<BufferReader>: the reader as it runs, its cursor moved in place. Every method is
    tied to the function of JceReader or JceSchema that says where the cursor goes. */
module JceInputStream {
  import opened Wrappers
  import opened Bytes
  import opened JceValue
  import opened JceReader
  import opened JceSchema
  import opened JceProgress

  function Thrown<T>(r: Step<T>): Option<Error>
  {
    if r.Done? then None else Some(r.e)
  }

  /** What an optional or required integer read leaves in its target, and what it throws. */
  function IntResult(r: Step<Option<int>>, required: bool, n: int): (int, Option<Error>)
  {
    match r
    case Raised(e, _, _) => (n, Some(e))
    case Done(None, _, _) => (n, if required then Some(RequireNotExist) else None)
    case Done(Some(k), _, _) => (k, None)
  }

  /** The same for the other types. */
  function ReadResult(r: Got<Option<Value>>, required: bool, v: Value): (Value, Option<Error>)
  {
    match r
    case Bad(e) => (v, Some(e))
    case Got(None, _) => (v, if required then Some(RequireNotExist) else None)
    case Got(Some(w), _) => (w, None)
  }

  /** A read that has ended: with the value and the cursor of the function, or its exception. */
  predicate Finished<T(==)>(g: Got<T>, v: T, err: Option<Error>, cur: nat)
  {
    match g
    case Bad(e) => err == Some(e)
    case Got(w, c) => err == None && v == w && cur == c
  }

  predicate Delivered(g: Got<Option<Value>>, required: bool, v0: Value, v: Value, err: Option<Error>, cur: nat)
  {
    (v, err) == ReadResult(g, required, v0) && (g.Got? ==> cur == g.cur)
  }

  // Targets hold values of their types before they are read into.

  predicate Holds(ty: Ty, v: Value)
  {
    ReadWidth(ty) != 0 ==> v.IntV? && Cast(ty, v.n) == v.n
  }

  /** Every struct member in the type starts from a value of its own type. */
  predicate TargetsHold(ty: Ty)
  {
    match ty
    case ListT(elem) => TargetsHold(elem)
    case MapT(key, val) => TargetsHold(key) && TargetsHold(val)
    case StructT(slots) => SlotsHold(slots)
    case _ => true
  }

  predicate SlotHolds(slot: Slot)
  {
    Holds(slot.ty, slot.default) && TargetsHold(slot.ty)
  }

  predicate SlotsHold(slots: seq<Slot>)
  {
    slots == [] || (SlotHolds(slots[0]) && SlotsHold(slots[1..]))
  }

  /** A newly constructed value. */
  function DefaultOf(ty: Ty): Value
  {
    match ty
    case FloatT => FloatV(0)
    case DoubleT => DoubleV(0)
    case StringT => StringV([])
    case BytesT => BytesV([])
    case ListT(_) => ListV([])
    case MapT(_, _) => MapV([])
    case StructT(slots) => StructV(Defaults(slots))
    case _ => IntV(0)
  }

  lemma DefaultHolds(ty: Ty)
    ensures Holds(ty, DefaultOf(ty))
  {
  }

  lemma IntegerReads(buf: seq<byte>, cur: nat, ty: Ty, tag: byte)
    requires ReadWidth(ty) != 0
    ensures match ReadInt(buf, cur, ReadWidth(ty), tag)
            case Raised(e, _, _) => Read(buf, cur, ty, tag) == Bad(e)
            case Done(None, c, _) => Read(buf, cur, ty, tag) == Got(None, c)
            case Done(Some(n), c, _) => Read(buf, cur, ty, tag) == Got(Some(IntV(Cast(ty, n))), c)
  {
    hide SkipToTag, PeekHead, ReadIntBody, Cast;
  }

  lemma NoPeeksInWord(buf: seq<byte>, cur: nat, kind: Kind, width: nat)
    requires width in {1, 2, 4, 8}
    ensures ReadIntBody(buf, cur, kind, width).peeks == 0
  {
    hide Unwire, Pow256;
  }

  lemma IntegerPeeks(buf: seq<byte>, cur: nat, ty: Ty, tag: byte)
    requires ReadWidth(ty) != 0
    ensures ReadPeeks(buf, cur, ty, tag) == ReadInt(buf, cur, ReadWidth(ty), tag).peeks
  {
    hide SkipToTag, PeekHead, ReadIntBody;
    var s := SkipToTag(buf, cur, tag);
    if s.found {
      var h := ReadHead(buf, s.cur);
      NoPeeksInWord(buf, h.cur, h.v.kind, ReadWidth(ty));
    }
  }

  /** What every read begins with: to the tag, then the head. */
  lemma ReadBegins(buf: seq<byte>, cur: nat, ty: Ty, tag: byte)
    ensures var s, g, p := SkipToTag(buf, cur, tag), Read(buf, cur, ty, tag), ReadPeeks(buf, cur, ty, tag);
            && (!s.found ==> g == Got(None, s.cur) && p == s.peeks)
            && (s.found ==>
                  var h := ReadHead(buf, s.cur);
                  && h.Done? && h.peeks == 1
                  && p == s.peeks + 1 + BodyPeeks(buf, h.cur, ty, h.v.kind)
                  && g == match ReadBody(buf, h.cur, ty, h.v.kind)
                          case Bad(e) => Bad(e)
                          case Got(v, c) => Got(Some(v), c))
  {
    hide SkipToTag, PeekHead, ReadBody, BodyPeeks;
  }

  /** One turn of the loop of readUnknown. */
  lemma UnknownTurn(buf: seq<byte>, cur: nat, lastTag: byte)
    ensures var r, p := ReadUnknown(buf, cur, lastTag), PeekHead(buf, cur);
            && (cur >= |buf| ==> r == Done(cur, cur, 0))
            && (cur < |buf| && p.None? ==> r == Raised(DecodeError, cur, 1))
            && (cur < |buf| && p.Some? ==>
                  var h, body := p.value.0, SkipBody(buf, cur + p.value.1, p.value.0.kind);
                  && (h.tag <= lastTag ==> r == Done(cur, cur, 1))
                  && (h.tag > lastTag && body.Raised? ==> r == Raised(body.e, body.cur, 1 + body.peeks))
                  && (h.tag > lastTag && body.Done? ==> r == ReadUnknown(buf, body.cur, h.tag).After(1 + body.peeks)))
  {
    hide PeekHead, SkipBody;
  }

  class InputStream {
    var buf: seq<byte>
    var cur: nat
    ghost var peeks: nat

    constructor ()
      ensures buf == [] && cur == 0
    {
      buf, cur := [], 0;
    }

    // BufferReader

    method SetBuffer(b: seq<byte>)
      modifies this
      ensures buf == b && cur == 0
    {
      buf := b;
      cur := 0;
    }

    predicate HasEnd()
      reads this
    {
      cur >= |buf|
    }

    method Skip(len: nat)
      modifies `cur
      ensures cur == old(cur) + len
    {
      cur := cur + len;
    }

    /** peekBuf: None stands for the exception. */
    method PeekBuf(len: nat, offset: nat) returns (r: Option<seq<byte>>)
      ensures r == if cur + offset + len > |buf| then None else Some(buf[cur + offset..cur + offset + len])
    {
      if cur + offset + len > |buf| {
        return None;
      }
      return Some(buf[cur + offset..cur + offset + len]);
    }

    method ReadBuf(len: nat) returns (r: Option<seq<byte>>)
      modifies `cur
      ensures var s := JceReader.ReadBuf(buf, old(cur), len);
              cur == s.cur && r == if s.Done? then Some(s.v) else None
    {
      r := PeekBuf(len, 0);
      if r.Some? {
        cur := cur + len;
      }
    }

    // DataHead

    method PeekHead() returns (r: Option<(DataHead, nat)>)
      modifies `peeks
      ensures r == JceReader.PeekHead(buf, cur) && peeks == old(peeks) + 1
    {
      peeks := peeks + 1;
      var h := PeekBuf(1, 0);
      if h.None? {
        return None;
      }
      var kind, tag := h.value[0] % 16, h.value[0] / 16;
      if tag == 15 {
        var t := PeekBuf(1, 1);
        if t.None? {
          return None;
        }
        return Some((DataHead(kind, t.value[0]), 2));
      }
      return Some((DataHead(kind, tag), 1));
    }

    method ReadHead() returns (r: Option<DataHead>)
      modifies `cur, `peeks
      ensures var s := JceReader.ReadHead(buf, old(cur));
              && cur == s.cur && peeks == old(peeks) + s.peeks
              && r == if s.Done? then Some(s.v) else None
    {
      var p := PeekHead();
      if p.None? {
        return None;
      }
      Skip(p.value.1);
      return Some(p.value.0);
    }

    // Skipping

    /** A decoding exception on the way is swallowed. */
    method SkipToTag(tag: byte) returns (found: bool)
      modifies `cur, `peeks
      ensures var s := JceReader.SkipToTag(buf, old(cur), tag);
              found == s.found && cur == s.cur && peeks == old(peeks) + s.peeks
      decreases Left(buf, cur), 1, 0
    {
      hide JceReader.SkipBody, JceReader.PeekHead;
      while !HasEnd()
        invariant cur >= old(cur)
        invariant var s, t := JceReader.SkipToTag(buf, old(cur), tag), JceReader.SkipToTag(buf, cur, tag);
                  s.found == t.found && s.cur == t.cur && old(peeks) + s.peeks == peeks + t.peeks
        decreases Left(buf, cur)
      {
        var p := PeekHead();
        if p.None? {
          return false;
        }
        var (h, n) := p.value;
        if tag <= h.tag || h.kind == STRUCT_END {
          return h.kind != STRUCT_END && tag == h.tag;
        }
        Skip(n);
        var err := SkipBody(h.kind);
        if err.Some? {
          return false;
        }
      }
      return false;
    }

    method SkipToStructEnd() returns (err: Option<Error>)
      modifies `cur, `peeks
      ensures var s := JceReader.SkipToStructEnd(buf, old(cur));
              err == Thrown(s) && cur == s.cur && peeks == old(peeks) + s.peeks
      decreases Left(buf, cur), 1, 0
    {
      hide JceReader.SkipBody, JceReader.ReadHead;
      while true
        invariant cur >= old(cur)
        invariant var s, t := JceReader.SkipToStructEnd(buf, old(cur)), JceReader.SkipToStructEnd(buf, cur);
                  Thrown(s) == Thrown(t) && s.cur == t.cur && old(peeks) + s.peeks == peeks + t.peeks
        decreases Left(buf, cur)
      {
        var h := ReadHead();
        if h.None? {
          return Some(DecodeError);
        }
        err := SkipBody(h.value.kind);
        if err.Some? || h.value.kind == STRUCT_END {
          return;
        }
      }
    }

    method SkipField() returns (err: Option<Error>)
      modifies `cur, `peeks
      ensures var s := JceReader.SkipField(buf, old(cur));
              err == Thrown(s) && cur == s.cur && peeks == old(peeks) + s.peeks
      decreases Left(buf, cur), 0, 0
    {
      hide JceReader.SkipBody, JceReader.ReadHead;
      var h := ReadHead();
      if h.None? {
        return Some(DecodeError);
      }
      err := SkipBody(h.value.kind);
    }

    /** skipField(type). */
    method SkipBody(kind: Kind) returns (err: Option<Error>)
      modifies `cur, `peeks
      ensures var s := JceReader.SkipBody(buf, old(cur), kind);
              err == Thrown(s) && cur == s.cur && peeks == old(peeks) + s.peeks
      decreases Left(buf, cur), 4, 0
    {
      hide JceReader.SkipToStructEnd, JceReader.SkipElements, JceReader.SkipSimpleList, JceReader.SkipString;
      err := None;
      match kind {
        case 0 => Skip(1);
        case 1 => Skip(2);
        case 2 => Skip(4);
        case 3 => Skip(8);
        case 4 => Skip(4);
        case 5 => Skip(8);
        case 6 => err := SkipString(1);
        case 7 => err := SkipString(4);
        case 8 => err := SkipElements(2);
        case 9 => err := SkipElements(1);
        case 10 => err := SkipToStructEnd();
        case 11 =>
        case 12 =>
        case 13 => err := SkipSimpleList();
        case _ => err := Some(Mismatch);
      }
    }

    method SkipString(width: nat) returns (err: Option<Error>)
      requires width in {1, 4}
      modifies `cur
      ensures var s := JceReader.SkipString(buf, old(cur), width);
              err == Thrown(s) && cur == s.cur && s.peeks == 0
    {
      hide Unwire;
      var len := ReadBuf(width);
      if len.None? {
        return Some(DecodeError);
      }
      Skip(Unwire(len.value));
      return None;
    }

    /** The map and list cases: a size, then a loop over the fields. */
    method SkipElements(per: nat) returns (err: Option<Error>)
      modifies `cur, `peeks
      ensures var s := JceReader.SkipElements(buf, old(cur), per);
              err == Thrown(s) && cur == s.cur && peeks == old(peeks) + s.peeks
      decreases Left(buf, cur), 3, 0
    {
      hide SkipCount, ReadInt, Pow256;
      var size;
      size, err := ReadInt32(0, 0, true);
      if err.Some? {
        return;
      }
      err := SkipTimes(Wrap32(size * per));
    }

    method SkipTimes(n: int) returns (err: Option<Error>)
      modifies `cur, `peeks
      ensures var s := SkipCount(buf, old(cur), if n < 0 then 0 else n);
              err == Thrown(s) && cur == s.cur && peeks == old(peeks) + s.peeks
      decreases Left(buf, cur), 1, 0
    {
      hide JceReader.SkipField;
      ghost var c0, p0 := cur, peeks;
      var i := 0;
      while i < n
        invariant 0 <= i && cur >= c0
        invariant i > 0 ==> i <= n
        invariant var s := SkipCount(buf, c0, if n < 0 then 0 else n);
                  var t := SkipCount(buf, cur, if n < 0 then 0 else n - i);
                  Thrown(s) == Thrown(t) && s.cur == t.cur && p0 + s.peeks == peeks + t.peeks
        decreases n - i
      {
        err := SkipField();
        if err.Some? {
          return;
        }
        i := i + 1;
      }
      return None;
    }

    method SkipSimpleList() returns (err: Option<Error>)
      modifies `cur, `peeks
      ensures var s := JceReader.SkipSimpleList(buf, old(cur));
              err == Thrown(s) && cur == s.cur && peeks == old(peeks) + s.peeks
      decreases Left(buf, cur), 3, 0
    {
      hide ReadInt, JceReader.ReadHead;
      var h := ReadHead();
      if h.None? {
        return Some(DecodeError);
      }
      if h.value.kind != CHAR {
        return Some(Mismatch);
      }
      var size;
      size, err := ReadInt32(0, 0, true);
      if err.None? {
        Skip(SizeT(size));
      }
    }

    /** The bytes from the cursor to the end of the last field with a rising tag. Beyond the end of the
        buffer there is nothing to copy. */
    method ReadUnknown(tag: byte) returns (unknown: seq<byte>, err: Option<Error>)
      modifies `cur, `peeks
      ensures var s := JceReader.ReadUnknown(buf, old(cur), tag);
              && err == Thrown(s) && cur == s.cur && peeks == old(peeks) + s.peeks
              && (s.Done? ==> unknown == buf[Min(old(cur), |buf|)..Min(s.v, |buf|)])
    {
      hide JceReader.SkipBody, JceReader.PeekHead, JceReader.ReadUnknown;
      var start, last, lastTag := cur, cur, tag;
      unknown, err := [], None;
      while !HasEnd()
        invariant old(cur) == start <= cur && last == cur && err == None
        invariant var s, t := JceReader.ReadUnknown(buf, start, tag), JceReader.ReadUnknown(buf, cur, lastTag);
                  Thrown(s) == Thrown(t) && s.cur == t.cur && old(peeks) + s.peeks == peeks + t.peeks
        decreases Left(buf, cur)
      {
        UnknownTurn(buf, cur, lastTag);
        var p := PeekHead();
        if p.None? {
          err := Some(DecodeError);
          return;
        }
        var (h, n) := p.value;
        if h.tag <= lastTag {
          break;
        }
        lastTag := h.tag;
        Skip(n);
        err := SkipBody(h.kind);
        if err.Some? {
          return;
        }
        last := cur;
      }
      if HasEnd() {
        UnknownTurn(buf, cur, lastTag);
      }
      unknown := buf[Min(start, |buf|)..Min(last, |buf|)];
    }

    // Integers: read(T& n, tag, isRequire), one method per signed width.

    method ReadWord(w: nat) returns (n: int, err: Option<Error>)
      requires w in {1, 2, 4, 8}
      modifies `cur
      ensures var s := JceReader.ReadWord(buf, old(cur), w);
              err == Thrown(s) && cur == s.cur && s.peeks == 0 && (s.Done? ==> n == s.v)
    {
      hide Unwire, Pow256;
      var s := ReadBuf(w);
      if s.None? {
        return 0, Some(DecodeError);
      }
      return Signed(Unwire(s.value), w), None;
    }

    method ReadChar(n0: int, tag: byte, required: bool) returns (n: int, err: Option<Error>)
      modifies `cur, `peeks
      ensures var s := ReadInt(buf, old(cur), 1, tag);
              (n, err) == IntResult(s, required, n0) && cur == s.cur && peeks == old(peeks) + s.peeks
    {
      hide JceReader.SkipToTag, JceReader.ReadWord;
      n, err := n0, None;
      var found := SkipToTag(tag);
      if found {
        var h := ReadHead();
        if h.value.kind == ZERO_TAG {
          n := 0;
        } else if h.value.kind == CHAR {
          n, err := ReadWord(1);
          if err.Some? {
            n := n0;
          }
        } else {
          err := Some(Mismatch);
        }
      } else if required {
        err := Some(RequireNotExist);
      }
    }

    method ReadInt32(n0: int, tag: byte, required: bool) returns (n: int, err: Option<Error>)
      modifies `cur, `peeks
      ensures var s := ReadInt(buf, old(cur), 4, tag);
              (n, err) == IntResult(s, required, n0) && cur == s.cur && peeks == old(peeks) + s.peeks
      decreases Left(buf, cur), 2, 0
    {
      hide JceReader.SkipToTag, JceReader.ReadWord;
      n, err := n0, None;
      var found := SkipToTag(tag);
      if found {
        var h := ReadHead();
        if h.value.kind == ZERO_TAG {
          n := 0;
        } else if h.value.kind == CHAR {
          n, err := ReadWord(1);
        } else if h.value.kind == SHORT {
          n, err := ReadWord(2);
        } else if h.value.kind == INT32 {
          n, err := ReadWord(4);
        } else {
          err := Some(Mismatch);
        }
        if err.Some? {
          n := n0;
        }
      } else if required {
        err := Some(RequireNotExist);
      }
    }

    method ReadShort(n0: int, tag: byte, required: bool) returns (n: int, err: Option<Error>)
      modifies `cur, `peeks
      ensures var s := ReadInt(buf, old(cur), 2, tag);
              (n, err) == IntResult(s, required, n0) && cur == s.cur && peeks == old(peeks) + s.peeks
    {
      hide JceReader.SkipToTag, JceReader.ReadWord;
      n, err := n0, None;
      var found := SkipToTag(tag);
      if found {
        var h := ReadHead();
        if h.value.kind == ZERO_TAG {
          n := 0;
        } else if h.value.kind == CHAR {
          n, err := ReadWord(1);
        } else if h.value.kind == SHORT {
          n, err := ReadWord(2);
        } else {
          err := Some(Mismatch);
        }
        if err.Some? {
          n := n0;
        }
      } else if required {
        err := Some(RequireNotExist);
      }
    }

    method ReadInt64(n0: int, tag: byte, required: bool) returns (n: int, err: Option<Error>)
      modifies `cur, `peeks
      ensures var s := ReadInt(buf, old(cur), 8, tag);
              (n, err) == IntResult(s, required, n0) && cur == s.cur && peeks == old(peeks) + s.peeks
    {
      hide JceReader.SkipToTag, JceReader.ReadWord;
      n, err := n0, None;
      var found := SkipToTag(tag);
      if found {
        var h := ReadHead();
        if h.value.kind == ZERO_TAG {
          n := 0;
        } else if h.value.kind == CHAR {
          n, err := ReadWord(1);
        } else if h.value.kind == SHORT {
          n, err := ReadWord(2);
        } else if h.value.kind == INT32 {
          n, err := ReadWord(4);
        } else if h.value.kind == INT64 {
          n, err := ReadWord(8);
        } else {
          err := Some(Mismatch);
        }
        if err.Some? {
          n := n0;
        }
      } else if required {
        err := Some(RequireNotExist);
      }
    }

    /** Bool and the unsigned types are read through a signed type and cast back. */
    method ReadInteger(ty: Ty, v0: Value, tag: byte, required: bool) returns (v: Value, err: Option<Error>)
      requires ReadWidth(ty) != 0 && Holds(ty, v0)
      modifies `cur, `peeks
      ensures Delivered(JceSchema.Read(buf, old(cur), ty, tag), required, v0, v, err, cur)
      ensures peeks == old(peeks) + ReadPeeks(buf, old(cur), ty, tag)
    {
      hide ReadInt, JceSchema.Read, Cast, ReadPeeks;
      IntegerReads(buf, cur, ty, tag);
      IntegerPeeks(buf, cur, ty, tag);
      var n;
      if ty == BoolT || ty == CharT {
        n, err := ReadChar(v0.n, tag, required);
      } else if ty == UInt8T || ty == ShortT {
        n, err := ReadShort(v0.n, tag, required);
      } else if ty == UInt16T || ty == Int32T {
        n, err := ReadInt32(v0.n, tag, required);
      } else {
        n, err := ReadInt64(v0.n, tag, required);
      }
      v := if err == None then IntV(Cast(ty, n)) else v0;
    }

    // The other overloads. Each begins alike: skip to the tag, read the head, switch on its type.

    method Read(ty: Ty, v0: Value, tag: byte, required: bool) returns (v: Value, err: Option<Error>)
      requires Holds(ty, v0) && TargetsHold(ty)
      modifies `cur, `peeks
      ensures Delivered(JceSchema.Read(buf, old(cur), ty, tag), required, v0, v, err, cur)
      ensures peeks == old(peeks) + ReadPeeks(buf, old(cur), ty, tag)
      decreases ty, 2, 0
    {
      hide JceReader.SkipToTag, JceReader.ReadHead, JceSchema.ReadBody, Cast, TargetsHold, BodyPeeks;
      hide JceSchema.Read, ReadPeeks;
      if ReadWidth(ty) != 0 {
        v, err := ReadInteger(ty, v0, tag, required);
        return;
      }
      ReadBegins(buf, cur, ty, tag);
      v, err := v0, None;
      var found := SkipToTag(tag);
      if found {
        var h := ReadHead();
        v, err := ReadBody(ty, h.value.kind);
        if err.Some? {
          v := v0;
        }
      } else if required {
        err := Some(RequireNotExist);
      }
    }

    method ReadBody(ty: Ty, kind: Kind) returns (v: Value, err: Option<Error>)
      requires ReadWidth(ty) == 0 && TargetsHold(ty)
      modifies `cur, `peeks
      ensures Finished(JceSchema.ReadBody(buf, old(cur), ty, kind), v, err, cur)
      ensures peeks == old(peeks) + BodyPeeks(buf, old(cur), ty, kind)
      decreases ty, 1, 0
    {
      match ty
      case FloatT => v, err := ReadFloat(kind);
      case DoubleT => v, err := ReadDouble(kind);
      case StringT => v, err := ReadString(kind);
      case BytesT => v, err := ReadBytes(kind);
      case ListT(elem) => v, err := ReadList(elem, kind);
      case MapT(key, val) => v, err := ReadMap(key, val, kind);
      case StructT(slots) => v, err := ReadStruct(slots, kind);
    }

    method ReadFloat(kind: Kind) returns (v: Value, err: Option<Error>)
      modifies `cur
      ensures Finished(JceSchema.ReadFloat(buf, old(cur), kind), v, err, cur)
    {
      hide Unwire, Pow256;
      v, err := FloatV(0), None;
      if kind == FLOAT {
        var s := ReadBuf(4);
        if s.None? {
          err := Some(DecodeError);
        } else {
          v := FloatV(Unwire(s.value));
        }
      } else if kind != ZERO_TAG {
        err := Some(Mismatch);
      }
    }

    method ReadDouble(kind: Kind) returns (v: Value, err: Option<Error>)
      modifies `cur
      ensures Finished(JceSchema.ReadDouble(buf, old(cur), kind), v, err, cur)
    {
      hide Unwire, Pow256, JceSchema.ReadFloat;
      v, err := DoubleV(0), None;
      if kind == FLOAT {
        v, err := ReadFloat(kind);
      } else if kind == DOUBLE {
        var s := ReadBuf(8);
        if s.None? {
          err := Some(DecodeError);
        } else {
          v := DoubleV(Unwire(s.value));
        }
      } else if kind != ZERO_TAG {
        err := Some(Mismatch);
      }
    }

    method ReadString(kind: Kind) returns (v: Value, err: Option<Error>)
      modifies `cur
      ensures Finished(JceSchema.ReadString(buf, old(cur), kind), v, err, cur)
    {
      hide Unwire, Pow256;
      v := StringV([]);
      if kind != STRING1 && kind != STRING4 {
        return v, Some(Mismatch);
      }
      var s := ReadBuf(if kind == STRING1 then 1 else 4);
      if s.None? {
        return v, Some(DecodeError);
      }
      var len := Unwire(s.value);
      if kind == STRING4 && len > MAX_STRING_LENGTH {
        return v, Some(InvalidValue);
      }
      s := ReadBuf(len);
      if s.None? {
        return v, Some(DecodeError);
      }
      return StringV(s.value), None;
    }

    method ReadSize() returns (n: nat, err: Option<Error>)
      modifies `cur, `peeks
      ensures Finished(JceSchema.ReadSize(buf, old(cur)), n, err, cur)
      ensures peeks == old(peeks) + SizePeeks(buf, old(cur))
    {
      hide ReadInt, Pow256;
      var k;
      k, err := ReadInt64(0, 0, true);
      n := Cast(UInt32T, k);
    }

    /** vector<Char>. */
    method ReadBytes(kind: Kind) returns (v: Value, err: Option<Error>)
      modifies `cur, `peeks
      ensures Finished(JceSchema.ReadBytes(buf, old(cur), kind), v, err, cur)
      ensures peeks == old(peeks) + BytesPeeks(buf, old(cur), kind)
    {
      hide JceSchema.ReadSize, JceReader.ReadHead, ReadInt, ReadCharItems, SizePeeks, CharsPeeks;
      v := BytesV([]);
      if kind == SIMPLE_LIST {
        var h := ReadHead();
        if h.None? {
          return v, Some(DecodeError);
        }
        if h.value.kind != CHAR {
          return v, Some(Mismatch);
        }
      } else if kind != LIST {
        return v, Some(Mismatch);
      }
      var size;
      size, err := ReadSize();
      if err.Some? {
        return;
      }
      if size > |buf| {
        return v, Some(InvalidValue);
      }
      if kind == SIMPLE_LIST {
        var s := ReadBuf(size);
        if s.None? {
          return v, Some(DecodeError);
        }
        return BytesV(s.value), None;
      }
      v, err := ReadChars(size);
    }

    method ReadChars(size: nat) returns (v: Value, err: Option<Error>)
      modifies `cur, `peeks
      ensures Finished(ReadCharItems(buf, old(cur), size, []), v, err, cur)
      ensures peeks == old(peeks) + CharsPeeks(buf, old(cur), size)
    {
      hide ReadInt;
      var i: nat, acc: seq<byte> := 0, [];
      ghost var c0 := cur;
      while i < size
        invariant i <= size
        invariant ReadCharItems(buf, c0, size, []) == ReadCharItems(buf, cur, size - i, acc)
        invariant old(peeks) + CharsPeeks(buf, c0, size) == peeks + CharsPeeks(buf, cur, size - i)
      {
        var c;
        c, err := ReadChar(0, 0, true);
        if err.Some? {
          return BytesV(acc), err;
        }
        var b: byte := Unsigned(c, 1);
        acc := acc + [b];
        i := i + 1;
      }
      return BytesV(acc), None;
    }

    method ReadList(elem: Ty, kind: Kind) returns (v: Value, err: Option<Error>)
      requires TargetsHold(elem)
      modifies `cur, `peeks
      ensures Finished(JceSchema.ReadBody(buf, old(cur), ListT(elem), kind), v, err, cur)
      ensures peeks == old(peeks) + BodyPeeks(buf, old(cur), ListT(elem), kind)
      decreases elem, 5, 0
    {
      hide JceSchema.ReadBody, JceSchema.ReadSize, JceSchema.ReadItems, BodyPeeks, SizePeeks, ItemsPeeks;
      ListBody(buf, cur, elem, kind);
      v := ListV([]);
      if kind != LIST {
        return v, Some(Mismatch);
      }
      var size;
      size, err := ReadSize();
      if err.Some? {
        return;
      }
      if size > |buf| {
        return v, Some(InvalidValue);
      }
      v, err := ReadItems(elem, size);
    }

    /** An element of a container: it must be there, and is read into a newly constructed target. */
    method ReadElement(ty: Ty, tag: byte) returns (v: Value, err: Option<Error>)
      requires TargetsHold(ty)
      modifies `cur, `peeks
      ensures Finished(ReadRequired(buf, old(cur), ty, tag), v, err, cur)
      ensures peeks == old(peeks) + ReadPeeks(buf, old(cur), ty, tag)
      decreases ty, 3, 0
    {
      hide JceSchema.Read, TargetsHold, ReadPeeks;
      DefaultHolds(ty);
      v, err := Read(ty, DefaultOf(ty), tag, true);
    }

    method ReadItems(elem: Ty, size: nat) returns (v: Value, err: Option<Error>)
      requires TargetsHold(elem)
      modifies `cur, `peeks
      ensures Finished(JceSchema.ReadItems(buf, old(cur), elem, size, []), v, err, cur)
      ensures peeks == old(peeks) + ItemsPeeks(buf, old(cur), elem, size)
      decreases elem, 4, 0
    {
      hide ReadRequired, TargetsHold, ReadPeeks;
      var i, acc := 0, [];
      ghost var c0 := cur;
      while i < size
        invariant i <= size
        invariant JceSchema.ReadItems(buf, c0, elem, size, []) == JceSchema.ReadItems(buf, cur, elem, size - i, acc)
        invariant old(peeks) + ItemsPeeks(buf, c0, elem, size) == peeks + ItemsPeeks(buf, cur, elem, size - i)
      {
        var w;
        w, err := ReadElement(elem, 0);
        if err.Some? {
          return ListV(acc), err;
        }
        acc := acc + [w];
        i := i + 1;
      }
      return ListV(acc), None;
    }

    method ReadMap(key: Ty, val: Ty, kind: Kind) returns (v: Value, err: Option<Error>)
      requires TargetsHold(key) && TargetsHold(val)
      modifies `cur, `peeks
      ensures Finished(JceSchema.ReadBody(buf, old(cur), MapT(key, val), kind), v, err, cur)
      ensures peeks == old(peeks) + BodyPeeks(buf, old(cur), MapT(key, val), kind)
      decreases MapT(key, val), 0, 1
    {
      hide JceSchema.ReadBody, JceSchema.ReadSize, JceSchema.ReadEntries, BodyPeeks, SizePeeks, EntriesPeeks;
      MapBody(buf, cur, key, val, kind);
      v := MapV([]);
      if kind != MAP {
        return v, Some(Mismatch);
      }
      var size;
      size, err := ReadSize();
      if err.Some? {
        return;
      }
      if size > |buf| {
        return v, Some(InvalidValue);
      }
      v, err := ReadEntries(key, val, size);
    }

    method ReadEntries(key: Ty, val: Ty, size: nat) returns (v: Value, err: Option<Error>)
      requires TargetsHold(key) && TargetsHold(val)
      modifies `cur, `peeks
      ensures Finished(JceSchema.ReadEntries(buf, old(cur), key, val, size, []), v, err, cur)
      ensures peeks == old(peeks) + EntriesPeeks(buf, old(cur), key, val, size)
      decreases MapT(key, val), 0, 0
    {
      hide ReadRequired, TargetsHold, Insert, ReadPeeks, JceSchema.ReadEntries, EntriesPeeks;
      var i, m := 0, [];
      ghost var c0 := cur;
      while i < size
        invariant i <= size
        invariant JceSchema.ReadEntries(buf, c0, key, val, size, []) ==
                  JceSchema.ReadEntries(buf, cur, key, val, size - i, m)
        invariant old(peeks) + EntriesPeeks(buf, c0, key, val, size) ==
                  peeks + EntriesPeeks(buf, cur, key, val, size - i)
      {
        ghost var c := cur;
        var k, x;
        k, err := ReadElement(key, 0);
        if err.Some? {
          EntryStops(buf, c, key, val, size - i, m);
          return MapV(m), err;
        }
        ghost var d := cur;
        x, err := ReadElement(val, 1);
        if err.Some? {
          EntryStops(buf, c, key, val, size - i, m);
          return MapV(m), err;
        }
        EntryGoes(buf, c, key, val, size - i, m, k, d, x, cur);
        m := Insert(m, Entry(k, x));
        i := i + 1;
      }
      NoEntries(buf, cur, key, val, m);
      return MapV(m), None;
    }

    method ReadStruct(slots: seq<Slot>, kind: Kind) returns (v: Value, err: Option<Error>)
      requires SlotsHold(slots)
      modifies `cur, `peeks
      ensures Finished(JceSchema.ReadBody(buf, old(cur), StructT(slots), kind), v, err, cur)
      ensures peeks == old(peeks) + BodyPeeks(buf, old(cur), StructT(slots), kind)
      decreases slots, 1, 0
    {
      hide JceSchema.ReadSlots, JceReader.SkipToStructEnd, SlotsPeeks;
      v := StructV([]);
      if kind != STRUCT_BEGIN {
        return v, Some(Mismatch);
      }
      var fs;
      fs, err := ReadFrom(slots);
      if err.Some? {
        return;
      }
      err := SkipToStructEnd();
      v := StructV(fs);
    }

    /** A struct's readFrom: its reads one after the other, over freshly reset members. */
    method ReadFrom(slots: seq<Slot>) returns (fs: seq<Field>, err: Option<Error>)
      requires SlotsHold(slots)
      modifies `cur, `peeks
      ensures Finished(JceSchema.ReadSlots(buf, old(cur), slots), fs, err, cur)
      ensures peeks == old(peeks) + SlotsPeeks(buf, old(cur), slots)
      decreases slots, 0, 0
    {
      hide JceSchema.ReadSlot, SlotHolds, SlotPeeks;
      fs, err := [], None;
      if slots != [] {
        var f, rest;
        f, err := ReadMember(slots[0]);
        if err.Some? {
          return;
        }
        rest, err := ReadFrom(slots[1..]);
        fs := [f] + rest;
      }
    }

    method ReadMember(slot: Slot) returns (f: Field, err: Option<Error>)
      requires SlotHolds(slot)
      modifies `cur, `peeks
      ensures Finished(JceSchema.ReadSlot(buf, old(cur), slot), f, err, cur)
      ensures peeks == old(peeks) + SlotPeeks(buf, old(cur), slot)
      decreases slot, 0, 0
    {
      hide JceSchema.Read, Holds, TargetsHold, ReadPeeks;
      var v;
      v, err := Read(slot.ty, slot.default, slot.tag, slot.required);
      f := Field(slot.tag, v);
    }
  }
}
