/** What JceInputStream does to its cursor, as functions of the buffer and the cursor. A cursor may
    stand beyond the end of the buffer: skip is unchecked. */
module JceReader {
  import opened Wrappers
  import opened Bytes
  import opened JceValue

  /** The exceptions of Jce.h a reader can throw. */
  datatype Error = DecodeError | Mismatch | RequireNotExist | InvalidValue

  datatype DataHead = DataHead(kind: Kind, tag: byte)

  /** A reading step: the value or the exception, the cursor it leaves, and how many heads it peeked. */
  datatype Step<+T> =
    | Done(v: T, cur: nat, peeks: nat)
    | Raised(e: Error, cur: nat, peeks: nat)
  {
    function After(p: nat): Step<T> {
      this.(peeks := peeks + p)
    }
  }

  datatype Sought = Sought(found: bool, cur: nat, peeks: nat)

  function Min(a: nat, b: nat): nat { if a < b then a else b }

  /** Bytes of the buffer still ahead of the cursor. */
  function Left(buf: seq<byte>, cur: nat): nat
  {
    if cur < |buf| then |buf| - cur else 0
  }

  /** Bytes of the buffer passed between two cursors. */
  function Passed(buf: seq<byte>, from: nat, to: nat): int
  {
    Left(buf, from) - Left(buf, to)
  }

  /** At most two heads are peeked per byte passed, and two more before an exception. */
  predicate Linear<T>(buf: seq<byte>, cur: nat, r: Step<T>)
  {
    cur <= r.cur && r.peeks <= 2 * Passed(buf, cur, r.cur) + (if r.Done? then 0 else 2)
  }

  // BufferReader

  /** peekBuf, then the cursor moves: readBuf. */
  function ReadBuf(buf: seq<byte>, cur: nat, len: nat): Step<seq<byte>>
  {
    if cur + len > |buf| then Raised(DecodeError, cur, 0) else Done(buf[cur..cur + len], cur + len, 0)
  }

  /** The conversion of a signed length to size_t, on a 32-bit machine. */
  function SizeT(n: int): nat
    requires -0x8000_0000 <= n < 0x8000_0000
  {
    if n < 0 then n + 0x1_0000_0000 else n
  }

  // DataHead

  /** DataHead::peekFrom: the head and how many bytes it takes. */
  function PeekHead(buf: seq<byte>, cur: nat): (r: Option<(DataHead, nat)>)
    ensures r.Some? ==> 1 <= r.value.1 <= 2 && cur + r.value.1 <= |buf|
  {
    if cur >= |buf| then None
    else if buf[cur] / 16 != 15 then Some((DataHead(buf[cur] % 16, buf[cur] / 16), 1))
    else if cur + 1 >= |buf| then None
    else Some((DataHead(buf[cur] % 16, buf[cur + 1]), 2))
  }

  function ReadHead(buf: seq<byte>, cur: nat): (r: Step<DataHead>)
    ensures Linear(buf, cur, r)
    ensures r.Done? ==> r.cur > cur && r.peeks == 1 && r.cur <= |buf|
    ensures r.Raised? ==> r == Raised(DecodeError, cur, 1)
  {
    match PeekHead(buf, cur)
    case None => Raised(DecodeError, cur, 1)
    case Some((h, n)) => Done(h, cur + n, 1)
  }

  // JceInputStream: skipping

  /** skipToTag: move to the first field whose tag is not below the wanted one. A decoding exception
      on the way is swallowed and leaves the cursor where it was thrown. */
  function SkipToTag(buf: seq<byte>, cur: nat, tag: byte): (r: Sought)
    ensures cur <= r.cur
    ensures r.peeks <= 2 * Passed(buf, cur, r.cur) + (if r.found then 1 else 2)
    ensures r.found ==> PeekHead(buf, r.cur).Some?
    decreases Left(buf, cur), 1, 0
  {
    if cur >= |buf| then Sought(false, cur, 0)
    else match PeekHead(buf, cur)
      case None => Sought(false, cur, 1)
      case Some((h, n)) =>
        if tag <= h.tag || h.kind == STRUCT_END then
          Sought(h.kind != STRUCT_END && tag == h.tag, cur, 1)
        else match SkipBody(buf, cur + n, h.kind)
          case Raised(_, c, w) => Sought(false, c, 1 + w)
          case Done(_, c, w) => var r := SkipToTag(buf, c, tag); r.(peeks := r.peeks + 1 + w)
  }

  /** skipToStructEnd: fields up to and including the first StructEnd. */
  function SkipToStructEnd(buf: seq<byte>, cur: nat): (r: Step<()>)
    ensures Linear(buf, cur, r)
    decreases Left(buf, cur), 1, 0
  {
    match ReadHead(buf, cur)
    case Raised(e, c, w) => Raised(e, c, w)
    case Done(h, c, w) =>
      match SkipBody(buf, c, h.kind)
      case Raised(e, c', w') => Raised(e, c', w + w')
      case Done(_, c', w') =>
        if h.kind == STRUCT_END then Done((), c', w + w')
        else SkipToStructEnd(buf, c').After(w + w')
  }

  /** skipField(): a head and what it announces. */
  function SkipField(buf: seq<byte>, cur: nat): (r: Step<()>)
    ensures Linear(buf, cur, r)
    ensures r.Done? ==> r.cur > cur && Left(buf, r.cur) < Left(buf, cur)
    decreases Left(buf, cur), 0, 0
  {
    match ReadHead(buf, cur)
    case Raised(e, c, w) => Raised(e, c, w)
    case Done(h, c, w) => SkipBody(buf, c, h.kind).After(w)
  }

  /** skipField() called a number of times, as the list and map loops do. */
  function SkipCount(buf: seq<byte>, cur: nat, n: nat): (r: Step<()>)
    ensures Linear(buf, cur, r)
    decreases Left(buf, cur), 1, n
  {
    if n == 0 then Done((), cur, 0)
    else match SkipField(buf, cur)
      case Raised(e, c, w) => Raised(e, c, w)
      case Done(_, c, w) => SkipCount(buf, c, n - 1).After(w)
  }

  /** Fixed payload sizes: how far skipField(type) moves without looking at the buffer. */
  function FixedSize(kind: Kind): Option<nat>
  {
    if kind == CHAR then Some(1)
    else if kind == SHORT then Some(2)
    else if kind == INT32 || kind == FLOAT then Some(4)
    else if kind == INT64 || kind == DOUBLE then Some(8)
    else if kind == STRUCT_END || kind == ZERO_TAG then Some(0)
    else None
  }

  /** skipField(type): what follows a head of that type. */
  function SkipBody(buf: seq<byte>, cur: nat, kind: Kind): (r: Step<()>)
    ensures Linear(buf, cur, r)
    decreases Left(buf, cur), 4, 0
  {
    if FixedSize(kind).Some? then Done((), cur + FixedSize(kind).value, 0)
    else if kind == STRING1 then SkipString(buf, cur, 1)
    else if kind == STRING4 then SkipString(buf, cur, 4)
    else if kind == MAP then SkipElements(buf, cur, 2)
    else if kind == LIST then SkipElements(buf, cur, 1)
    else if kind == SIMPLE_LIST then SkipSimpleList(buf, cur)
    else if kind == STRUCT_BEGIN then SkipToStructEnd(buf, cur)
    else Raised(Mismatch, cur, 0)
  }

  function SkipString(buf: seq<byte>, cur: nat, width: nat): (r: Step<()>)
    requires width in {1, 4}
    ensures Linear(buf, cur, r)
  {
    match ReadBuf(buf, cur, width)
    case Raised(e, c, w) => Raised(e, c, w)
    case Done(s, c, w) => Done((), c + Unwire(s), w)
  }

  /** A count, then that many times `per` fields. */
  function SkipElements(buf: seq<byte>, cur: nat, per: nat): (r: Step<()>)
    ensures Linear(buf, cur, r)
    decreases Left(buf, cur), 3, 0
  {
    match ReadInt(buf, cur, 4, 0)
    case Raised(e, c, w) => Raised(e, c, w)
    case Done(None, c, w) => Raised(RequireNotExist, c, w)
    case Done(Some(size), c, w) =>
      var n := Wrap32(size * per);
      SkipCount(buf, c, if n < 0 then 0 else n).After(w)
  }

  function SkipSimpleList(buf: seq<byte>, cur: nat): (r: Step<()>)
    ensures Linear(buf, cur, r)
    decreases Left(buf, cur), 3, 0
  {
    match ReadHead(buf, cur)
    case Raised(e, c, w) => Raised(e, c, w)
    case Done(h, c, w) =>
      if h.kind != CHAR then Raised(Mismatch, c, w)
      else match ReadInt(buf, c, 4, 0)
        case Raised(e, c', w') => Raised(e, c', w + w')
        case Done(None, c', w') => Raised(RequireNotExist, c', w + w')
        case Done(Some(size), c', w') => Done((), c' + SizeT(size), w + w')
  }

  // JceInputStream: integers

  /** The switch of the integer readers: a payload no wider than the target type, sign-extended. */
  function ReadIntBody(buf: seq<byte>, cur: nat, kind: Kind, width: nat): (r: Step<int>)
    requires width in {1, 2, 4, 8}
    ensures Linear(buf, cur, r)
    ensures r.Done? ==> FitsSigned(r.v, width)
  {
    if kind == ZERO_TAG then Done(0, cur, 0)
    else if kind == CHAR then ReadWord(buf, cur, 1)
    else if kind == SHORT && width >= 2 then ReadWord(buf, cur, 2)
    else if kind == INT32 && width >= 4 then ReadWord(buf, cur, 4)
    else if kind == INT64 && width >= 8 then ReadWord(buf, cur, 8)
    else Raised(Mismatch, cur, 0)
  }

  function ReadWord(buf: seq<byte>, cur: nat, w: nat): (r: Step<int>)
    requires w in {1, 2, 4, 8}
    ensures Linear(buf, cur, r)
    ensures r.Done? ==> FitsSigned(r.v, w)
  {
    match ReadBuf(buf, cur, w)
    case Raised(e, c, p) => Raised(e, c, p)
    case Done(s, c, p) => Done(Signed(Unwire(s), w), c, p)
  }

  /** read(Char/Short/Int32/Int64): None when the tag is absent. */
  function ReadInt(buf: seq<byte>, cur: nat, width: nat, tag: byte): (r: Step<Option<int>>)
    requires width in {1, 2, 4, 8}
    ensures cur <= r.cur && r.peeks <= 2 * Passed(buf, cur, r.cur) + 2
    ensures r.Done? && r.v.Some? ==>
            Linear(buf, cur, r) && FitsSigned(r.v.value, width) && Left(buf, r.cur) < Left(buf, cur)
    decreases Left(buf, cur), 2, 0
  {
    var s := SkipToTag(buf, cur, tag);
    if !s.found then Done(None, s.cur, s.peeks)
    else
      var Done(h, c, w) := ReadHead(buf, s.cur);
      match ReadIntBody(buf, c, h.kind, width)
      case Raised(e, c', w') => Raised(e, c', s.peeks + w + w')
      case Done(n, c', w') => Done(Some(n), c', s.peeks + w + w')
  }

  /** The loop of readUnknown: fields while their tags rise above the last one seen. The value is the
      end of the last field passed; an exception is passed on. */
  function ReadUnknown(buf: seq<byte>, cur: nat, lastTag: byte): (r: Step<nat>)
    ensures cur <= r.cur && (r.Done? ==> r.v == r.cur)
    ensures r.peeks <= 2 * Passed(buf, cur, r.cur) + 2
    decreases Left(buf, cur)
  {
    if cur >= |buf| then Done(cur, cur, 0)
    else match PeekHead(buf, cur)
      case None => Raised(DecodeError, cur, 1)
      case Some((h, n)) =>
        if h.tag <= lastTag then Done(cur, cur, 1)
        else match SkipBody(buf, cur + n, h.kind)
          case Raised(e, c, w) => Raised(e, c, 1 + w)
          case Done(_, c, w) => ReadUnknown(buf, c, h.tag).After(1 + w)
  }
}
