/** Types as the read overloads of JceInputStream see them, and reading by type. */
module JceSchema {
  import opened Wrappers
  import opened Bytes
  import opened JceValue
  import opened JceReader

  /** The static type of a read target. An enum is read as Int32T; vector<Char> is BytesT, which has
      its own overload; a struct is the reads its readFrom makes, in that order. */
  datatype Ty =
    | BoolT
    | CharT
    | UInt8T
    | ShortT
    | UInt16T
    | Int32T
    | UInt32T
    | Int64T
    | FloatT
    | DoubleT
    | StringT
    | BytesT
    | ListT(elem: Ty)
    | MapT(key: Ty, val: Ty)
    | StructT(slots: seq<Slot>)

  /** One read of a readFrom: an optional field that is absent keeps its default. */
  datatype Slot = Slot(tag: byte, ty: Ty, required: bool, default: Value)

  /** The members of a newly constructed struct. */
  function Defaults(slots: seq<Slot>): (fs: seq<Field>)
    ensures |fs| == |slots|
  {
    if slots == [] then [] else [Field(slots[0].tag, slots[0].default)] + Defaults(slots[1..])
  }

  /** The result of a typed read: nothing catches its exceptions, so no cursor is kept for them. */
  datatype Got<+T> = Got(v: T, cur: nat) | Bad(e: Error)

  /** Bytes of the signed type an integer type is read through; 0 for the other types. */
  function ReadWidth(ty: Ty): (w: nat)
    ensures w in {0, 1, 2, 4, 8}
  {
    match ty
    case BoolT | CharT => 1
    case UInt8T | ShortT => 2
    case UInt16T | Int32T => 4
    case UInt32T | Int64T => 8
    case _ => 0
  }

  /** The cast from the signed type back to the target type. */
  function Cast(ty: Ty, n: int): int
  {
    match ty
    case BoolT => if n == 0 then 0 else 1
    case UInt8T => n % 0x100
    case UInt16T => n % 0x1_0000
    case UInt32T => n % 0x1_0000_0000
    case _ => n
  }

  /** std::map::insert: a key that is already there keeps its value. */
  function Insert(m: seq<Entry>, e: Entry): seq<Entry>
  {
    if exists i :: 0 <= i < |m| && m[i].key == e.key then m else m + [e]
  }

  /** read(T&, tag): None when the tag is absent. */
  function Read(buf: seq<byte>, cur: nat, ty: Ty, tag: byte): (r: Got<Option<Value>>)
    decreases ty, 2, 0
  {
    var s := SkipToTag(buf, cur, tag);
    if !s.found then Got(None, s.cur)
    else
      var Done(h, c, _) := ReadHead(buf, s.cur);
      match ReadBody(buf, c, ty, h.kind)
      case Bad(e) => Bad(e)
      case Got(v, c') => Got(Some(v), c')
  }

  /** A read with isRequire left at true. */
  function ReadRequired(buf: seq<byte>, cur: nat, ty: Ty, tag: byte): Got<Value>
    decreases ty, 3, 0
  {
    match Read(buf, cur, ty, tag)
    case Bad(e) => Bad(e)
    case Got(None, _) => Bad(RequireNotExist)
    case Got(Some(v), c) => Got(v, c)
  }

  /** The switch on the head's type. */
  function ReadBody(buf: seq<byte>, cur: nat, ty: Ty, kind: Kind): Got<Value>
    decreases ty, 1, 0
  {
    match ty
    case FloatT => ReadFloat(buf, cur, kind)
    case DoubleT => ReadDouble(buf, cur, kind)
    case StringT => ReadString(buf, cur, kind)
    case BytesT => ReadBytes(buf, cur, kind)
    case ListT(elem) =>
      if kind != LIST then Bad(Mismatch)
      else (
        match ReadSize(buf, cur)
        case Bad(e) => Bad(e)
        case Got(n, c) => if n > |buf| then Bad(InvalidValue) else ReadItems(buf, c, elem, n, [])
      )
    case MapT(key, val) =>
      if kind != MAP then Bad(Mismatch)
      else (
        match ReadSize(buf, cur)
        case Bad(e) => Bad(e)
        case Got(n, c) => if n > |buf| then Bad(InvalidValue) else ReadEntries(buf, c, key, val, n, [])
      )
    case StructT(slots) =>
      if kind != STRUCT_BEGIN then Bad(Mismatch)
      else (
        match ReadSlots(buf, cur, slots)
        case Bad(e) => Bad(e)
        case Got(fs, c) =>
          match SkipToStructEnd(buf, c)
          case Raised(e, _, _) => Bad(e)
          case Done(_, c', _) => Got(StructV(fs), c')
      )
    case _ => ReadInteger(buf, cur, ty, kind)
  }

  function ReadInteger(buf: seq<byte>, cur: nat, ty: Ty, kind: Kind): Got<Value>
    requires ReadWidth(ty) != 0
  {
    match ReadIntBody(buf, cur, kind, ReadWidth(ty))
    case Raised(e, _, _) => Bad(e)
    case Done(n, c, _) => Got(IntV(Cast(ty, n)), c)
  }

  function ReadFloat(buf: seq<byte>, cur: nat, kind: Kind): Got<Value>
  {
    if kind == ZERO_TAG then Got(FloatV(0), cur)
    else if kind == FLOAT then (
      match ReadBuf(buf, cur, 4)
      case Raised(e, _, _) => Bad(e)
      case Done(s, c, _) => Got(FloatV(Unwire(s)), c)
    ) else Bad(Mismatch)
  }

  /** A Float read as a Double is widened, which changes no number: the value stays the Float's. */
  function ReadDouble(buf: seq<byte>, cur: nat, kind: Kind): Got<Value>
  {
    if kind == ZERO_TAG then Got(DoubleV(0), cur)
    else if kind == FLOAT then ReadFloat(buf, cur, kind)
    else if kind == DOUBLE then (
      match ReadBuf(buf, cur, 8)
      case Raised(e, _, _) => Bad(e)
      case Done(s, c, _) => Got(DoubleV(Unwire(s)), c)
    ) else Bad(Mismatch)
  }

  function ReadString(buf: seq<byte>, cur: nat, kind: Kind): Got<Value>
  {
    if kind == STRING1 then (
      match ReadBuf(buf, cur, 1)
      case Raised(e, _, _) => Bad(e)
      case Done(s, c, _) => ReadChars(buf, c, Unwire(s))
    ) else if kind == STRING4 then (
      match ReadBuf(buf, cur, 4)
      case Raised(e, _, _) => Bad(e)
      case Done(s, c, _) =>
        if Unwire(s) > MAX_STRING_LENGTH then Bad(InvalidValue) else ReadChars(buf, c, Unwire(s))
    ) else Bad(Mismatch)
  }

  function ReadChars(buf: seq<byte>, cur: nat, len: nat): Got<Value>
  {
    match ReadBuf(buf, cur, len)
    case Raised(e, _, _) => Bad(e)
    case Done(s, c, _) => Got(StringV(s), c)
  }

  /** UInt32 size; read(size, 0): through Int64, and it must be there. */
  function ReadSize(buf: seq<byte>, cur: nat): Got<nat>
  {
    match ReadInt(buf, cur, 8, 0)
    case Raised(e, _, _) => Bad(e)
    case Done(None, _, _) => Bad(RequireNotExist)
    case Done(Some(n), c, _) => Got(Cast(UInt32T, n), c)
  }

  /** vector<Char>: from a SimpleList in one copy, from a List one Char at a time. */
  function ReadBytes(buf: seq<byte>, cur: nat, kind: Kind): Got<Value>
  {
    if kind == SIMPLE_LIST then (
      match ReadHead(buf, cur)
      case Raised(e, _, _) => Bad(e)
      case Done(h, c, _) =>
        if h.kind != CHAR then Bad(Mismatch)
        else match ReadSize(buf, c)
          case Bad(e) => Bad(e)
          case Got(n, c') => if n > |buf| then Bad(InvalidValue) else ReadBlock(buf, c', n)
    ) else if kind == LIST then (
      match ReadSize(buf, cur)
      case Bad(e) => Bad(e)
      case Got(n, c) => if n > |buf| then Bad(InvalidValue) else ReadCharItems(buf, c, n, [])
    ) else Bad(Mismatch)
  }

  function ReadBlock(buf: seq<byte>, cur: nat, len: nat): Got<Value>
  {
    match ReadBuf(buf, cur, len)
    case Raised(e, _, _) => Bad(e)
    case Done(s, c, _) => Got(BytesV(s), c)
  }

  function ReadCharItems(buf: seq<byte>, cur: nat, n: nat, acc: seq<byte>): Got<Value>
    decreases n
  {
    if n == 0 then Got(BytesV(acc), cur)
    else match ReadInt(buf, cur, 1, 0)
      case Raised(e, _, _) => Bad(e)
      case Done(None, _, _) => Bad(RequireNotExist)
      case Done(Some(k), c, _) => ReadCharItems(buf, c, n - 1, acc + [Unsigned(k, 1)])
  }

  /** The loop of the vector reader, with the elements read so far. */
  function ReadItems(buf: seq<byte>, cur: nat, elem: Ty, n: nat, acc: seq<Value>): Got<Value>
    decreases elem, 4, n
  {
    if n == 0 then Got(ListV(acc), cur)
    else match ReadRequired(buf, cur, elem, 0)
      case Bad(e) => Bad(e)
      case Got(v, c) => ReadItems(buf, c, elem, n - 1, acc + [v])
  }

  /** The loop of the map reader. */
  function ReadEntries(buf: seq<byte>, cur: nat, key: Ty, val: Ty, n: nat, acc: seq<Entry>): Got<Value>
    decreases MapT(key, val), 0, n
  {
    if n == 0 then Got(MapV(acc), cur)
    else match ReadRequired(buf, cur, key, 0)
      case Bad(e) => Bad(e)
      case Got(k, c) =>
        match ReadRequired(buf, c, val, 1)
        case Bad(e) => Bad(e)
        case Got(v, c') => ReadEntries(buf, c', key, val, n - 1, Insert(acc, Entry(k, v)))
  }

  function ReadSlot(buf: seq<byte>, cur: nat, slot: Slot): Got<Field>
    decreases slot, 0, 0
  {
    match Read(buf, cur, slot.ty, slot.tag)
    case Bad(e) => Bad(e)
    case Got(None, c) => if slot.required then Bad(RequireNotExist) else Got(Field(slot.tag, slot.default), c)
    case Got(Some(v), c) => Got(Field(slot.tag, v), c)
  }

  /** readFrom. */
  function ReadSlots(buf: seq<byte>, cur: nat, slots: seq<Slot>): Got<seq<Field>>
    decreases slots, 0, 0
  {
    if slots == [] then Got([], cur)
    else match ReadSlot(buf, cur, slots[0])
      case Bad(e) => Bad(e)
      case Got(f, c) =>
        match ReadSlots(buf, c, slots[1..])
        case Bad(e) => Bad(e)
        case Got(fs, c') => Got([f] + fs, c')
  }
}
