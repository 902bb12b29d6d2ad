/** What reading by type should mean, said on values alone: a tag is looked up, and what is found is
    converted to the wanted type. No bytes and no cursor appear here. */
module JceLookup {
  import opened Wrappers
  import opened Bytes
  import opened JceValue
  import opened JceReader
  import opened JceSchema

  predicate Ascending(fs: seq<Field>)
  {
    forall i, j :: 0 <= i < j < |fs| ==> fs[i].tag < fs[j].tag
  }

  predicate AscendingSlots(slots: seq<Slot>)
  {
    forall i, j :: 0 <= i < j < |slots| ==> slots[i].tag < slots[j].tag
  }

  /** Every struct in the value, at any depth, was written in ascending tag order. */
  predicate Ordered(v: Value)
  {
    match v
    case ListV(items) => OrderedItems(items)
    case MapV(entries) => OrderedEntries(entries)
    case StructV(fields) => Ascending(fields) && OrderedFields(fields)
    case _ => true
  }

  predicate OrderedItems(items: seq<Value>)
  {
    items == [] || (Ordered(items[0]) && OrderedItems(items[1..]))
  }

  predicate OrderedEntry(e: Entry)
  {
    Ordered(e.key) && Ordered(e.val)
  }

  predicate OrderedEntries(es: seq<Entry>)
  {
    es == [] || (OrderedEntry(es[0]) && OrderedEntries(es[1..]))
  }

  predicate OrderedField(f: Field)
  {
    Ordered(f.val)
  }

  predicate OrderedFields(fs: seq<Field>)
  {
    fs == [] || (OrderedField(fs[0]) && OrderedFields(fs[1..]))
  }

  /** Every readFrom in the type, at any depth, asks for its tags in ascending order. */
  predicate OrderedTy(ty: Ty)
  {
    match ty
    case ListT(elem) => OrderedTy(elem)
    case MapT(key, val) => OrderedTy(key) && OrderedTy(val)
    case StructT(slots) => AscendingSlots(slots) && OrderedSlots(slots)
    case _ => true
  }

  predicate OrderedSlot(slot: Slot)
  {
    OrderedTy(slot.ty)
  }

  predicate OrderedSlots(slots: seq<Slot>)
  {
    slots == [] || (OrderedSlot(slots[0]) && OrderedSlots(slots[1..]))
  }

  /** The record as a finite map from tags. */
  function Lookup(fs: seq<Field>, tag: byte): Option<Value>
  {
    if fs == [] then None
    else if fs[0].tag == tag then Some(fs[0].val)
    else Lookup(fs[1..], tag)
  }

  /** A value seen at a type. */
  function Project(ty: Ty, v: Value): Result<Value, Error>
    decreases ty, 1, 0
  {
    match ty
    case FloatT =>
      if v.FloatV? then Success(v) else if v == IntV(0) then Success(FloatV(0)) else Failure(Mismatch)
    case DoubleT =>
      if v.FloatV? || v.DoubleV? then Success(v) else if v == IntV(0) then Success(DoubleV(0)) else Failure(Mismatch)
    case StringT => if v.StringV? then Success(v) else Failure(Mismatch)
    case BytesT =>
      if v.BytesV? then Success(v)
      else if v.ListV? then (
        match ProjectChars(v.items)
        case Failure(e) => Failure(e)
        case Success(b) => Success(BytesV(b))
      ) else Failure(Mismatch)
    case ListT(elem) =>
      if !v.ListV? then Failure(Mismatch)
      else (
        match ProjectItems(elem, v.items)
        case Failure(e) => Failure(e)
        case Success(ws) => Success(ListV(ws))
      )
    case MapT(key, val) =>
      if !v.MapV? then Failure(Mismatch)
      else (
        match ProjectEntries(key, val, v.entries)
        case Failure(e) => Failure(e)
        case Success(es) => Success(MapV(InsertAll([], es)))
      )
    case StructT(slots) =>
      if !v.StructV? then Failure(Mismatch)
      else (
        match ProjectSlots(slots, v.fields)
        case Failure(e) => Failure(e)
        case Success(fs) => Success(StructV(fs))
      )
    case _ => ProjectInt(ty, v)
  }

  function ProjectInt(ty: Ty, v: Value): Result<Value, Error>
  {
    if v.IntV? && FitsSigned(v.n, ReadWidth(ty)) then Success(IntV(Cast(ty, v.n))) else Failure(Mismatch)
  }

  function ProjectChars(items: seq<Value>): Result<seq<byte>, Error>
  {
    if items == [] then Success([])
    else if !(items[0].IntV? && FitsSigned(items[0].n, 1)) then Failure(Mismatch)
    else match ProjectChars(items[1..])
      case Failure(e) => Failure(e)
      case Success(b) => Success([Unsigned(items[0].n, 1)] + b)
  }

  function ProjectItems(elem: Ty, items: seq<Value>): Result<seq<Value>, Error>
    decreases elem, 2, |items|
  {
    if items == [] then Success([])
    else match Project(elem, items[0])
      case Failure(e) => Failure(e)
      case Success(w) =>
        match ProjectItems(elem, items[1..])
        case Failure(e) => Failure(e)
        case Success(ws) => Success([w] + ws)
  }

  function ProjectEntries(key: Ty, val: Ty, es: seq<Entry>): Result<seq<Entry>, Error>
    decreases MapT(key, val), 0, |es|
  {
    if es == [] then Success([])
    else match ProjectEntry(key, val, es[0])
      case Failure(e) => Failure(e)
      case Success(w) =>
        match ProjectEntries(key, val, es[1..])
        case Failure(e) => Failure(e)
        case Success(ws) => Success([w] + ws)
  }

  function ProjectEntry(key: Ty, val: Ty, entry: Entry): Result<Entry, Error>
    decreases MapT(key, val), 0, 0
  {
    match Project(key, entry.key)
    case Failure(e) => Failure(e)
    case Success(k) =>
      match Project(val, entry.val)
      case Failure(e) => Failure(e)
      case Success(x) => Success(Entry(k, x))
  }

  function InsertAll(m: seq<Entry>, es: seq<Entry>): seq<Entry>
    decreases |es|
  {
    if es == [] then m else InsertAll(Insert(m, es[0]), es[1..])
  }

  /** One wanted field: the stored value if the tag is there, the default if it is not. */
  function ProjectSlot(slot: Slot, stored: Option<Value>): Result<Field, Error>
    decreases slot, 0, 0
  {
    match stored
    case None => if slot.required then Failure(RequireNotExist) else Success(Field(slot.tag, slot.default))
    case Some(v) =>
      match Project(slot.ty, v)
      case Failure(e) => Failure(e)
      case Success(w) => Success(Field(slot.tag, w))
  }

  function ProjectSlots(slots: seq<Slot>, fs: seq<Field>): Result<seq<Field>, Error>
    decreases slots, 0, 0
  {
    if slots == [] then Success([])
    else match ProjectSlot(slots[0], Lookup(fs, slots[0].tag))
      case Failure(e) => Failure(e)
      case Success(f) =>
        match ProjectSlots(slots[1..], fs)
        case Failure(e) => Failure(e)
        case Success(ws) => Success([f] + ws)
  }
}
