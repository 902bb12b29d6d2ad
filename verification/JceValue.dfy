/** The values that travel in JCE encoding and the bytes that stand for them. */
module JceValue {
  import opened Bytes

  // Field types, the low four bits of a head (DataHead's enum).
  const CHAR := 0
  const SHORT := 1
  const INT32 := 2
  const INT64 := 3
  const FLOAT := 4
  const DOUBLE := 5
  const STRING1 := 6
  const STRING4 := 7
  const MAP := 8
  const LIST := 9
  const STRUCT_BEGIN := 10
  const STRUCT_END := 11
  const ZERO_TAG := 12
  const SIMPLE_LIST := 13

  type Kind = k: int | 0 <= k < 16

  const MAX_STRING_LENGTH := 100 * 1024 * 1024

  /** A value as the writer sees it. Every integer type writes the same bytes for the same number
      (see Integers below), so one constructor serves them all; floating point numbers are their
      bit patterns; vector<Char> is BytesV; a map is its entries in the order they are written. */
  datatype Value =
    | IntV(n: int)
    | FloatV(bits: nat)
    | DoubleV(bits: nat)
    | StringV(s: seq<byte>)
    | BytesV(b: seq<byte>)
    | ListV(items: seq<Value>)
    | MapV(entries: seq<Entry>)
    | StructV(fields: seq<Field>)

  datatype Entry = Entry(key: Value, val: Value)

  datatype Field = Field(tag: byte, val: Value)

  // What fits the source's types: lengths are Int32, and a map's skip loop counts to size * 2
  // in Int32.

  predicate Fits(v: Value)
  {
    match v
    case IntV(n) => FitsSigned(n, 8)
    case FloatV(bits) => bits < Pow256(4)
    case DoubleV(bits) => bits < Pow256(8)
    case StringV(s) => |s| <= MAX_STRING_LENGTH
    case BytesV(b) => |b| < 0x8000_0000
    case ListV(items) => |items| < 0x8000_0000 && FitItems(items)
    case MapV(entries) => |entries| < 0x4000_0000 && FitEntries(entries)
    case StructV(fields) => FitFields(fields)
  }

  predicate FitItems(items: seq<Value>)
  {
    items == [] || (Fits(items[0]) && FitItems(items[1..]))
  }

  predicate FitEntries(es: seq<Entry>)
  {
    es == [] || (FitsEntry(es[0]) && FitEntries(es[1..]))
  }

  predicate FitsEntry(e: Entry)
  {
    Fits(e.key) && Fits(e.val)
  }

  predicate FitsField(f: Field)
  {
    Fits(f.val)
  }

  predicate FitFields(fs: seq<Field>)
  {
    fs == [] || (FitsField(fs[0]) && FitFields(fs[1..]))
  }

  /** The type nibble a value's head carries. */
  function KindOf(v: Value): Kind
  {
    match v
    case IntV(n) => IntKind(IntWidth(n))
    case FloatV(_) => FLOAT
    case DoubleV(_) => DOUBLE
    case StringV(s) => if |s| > 255 then STRING4 else STRING1
    case BytesV(_) => SIMPLE_LIST
    case ListV(_) => LIST
    case MapV(_) => MAP
    case StructV(_) => STRUCT_BEGIN
  }

  /** Bytes of payload an integer gets: none for zero, else the narrowest of 1, 2, 4, 8. */
  function IntWidth(n: int): (w: nat)
    ensures w in {0, 1, 2, 4, 8}
  {
    if n == 0 then 0
    else if -128 <= n <= 127 then 1
    else if -32768 <= n <= 32767 then 2
    else if -0x8000_0000 <= n <= 0x7FFF_FFFF then 4
    else 8
  }

  function IntKind(width: nat): Kind
    requires width in {0, 1, 2, 4, 8}
  {
    if width == 0 then ZERO_TAG
    else if width == 1 then CHAR
    else if width == 2 then SHORT
    else if width == 4 then INT32
    else INT64
  }

  /** A word as it is put on the wire: converted by htons, htonl or jce_htonll, then copied from
      memory. A single byte is copied as it is. */
  function Wire(u: nat, width: nat): (s: seq<byte>)
    requires width in {0, 1, 2, 4, 8}
    ensures |s| == width
  {
    if width <= 1 then Little(u, width)
    else if width <= 4 then Hton(Little(u, width))
    else Htonll(Little(u, 8))
  }

  /** The word read back from wire bytes. */
  function Unwire(s: seq<byte>): (u: nat)
    requires |s| in {0, 1, 2, 4, 8}
    ensures u < Pow256(|s|)
  {
    if |s| <= 1 then FromLittle(s)
    else if |s| <= 4 then FromLittle(Hton(s))
    else FromLittle(Htonll(s))
  }

  lemma WireRoundTrip(u: nat, width: nat)
    requires width in {0, 1, 2, 4, 8} && u < Pow256(width)
    ensures Unwire(Wire(u, width)) == u
  {
    LittleRoundTrip(u, width);
    ReverseTwice(Little(u, width));
    if width == 8 {
      HtonllReverses(Little(u, 8));
    }
  }

  /** Whatever the width, what goes on the wire is big-endian. */
  lemma WireIsBigEndian(u: nat, width: nat)
    requires width in {0, 1, 2, 4, 8} && u < Pow256(width)
    ensures FromBig(Wire(u, width)) == u
  {
    LittleRoundTrip(u, width);
    ReverseIsBig(Little(u, width));
    if width == 8 {
      HtonllReverses(Little(u, 8));
    } else if width == 1 {
      assert Little(u, 1)[..0] == [];
    }
  }

  function Head(kind: Kind, tag: byte): (s: seq<byte>)
    ensures 1 <= |s| <= 2
  {
    if tag < 15 then [kind + 16 * tag] else [kind + 16 * 15, tag]
  }

  /** An integer's payload. Numbers outside Int64 do not occur (see Fits); they get the low bytes. */
  function IntBody(n: int): seq<byte>
  {
    Wire(n % Pow256(IntWidth(n)), IntWidth(n))
  }

  function EncInt(n: int, tag: byte): seq<byte>
  {
    Head(IntKind(IntWidth(n)), tag) + IntBody(n)
  }

  /** What follows the head of a value. */
  function Body(v: Value): seq<byte>
    decreases v, 0
  {
    match v
    case IntV(n) => IntBody(n)
    case FloatV(bits) => Wire(bits, 4)
    case DoubleV(bits) => Wire(bits, 8)
    case StringV(s) => if |s| > 255 then Wire(|s|, 4) + s else [|s|] + s
    case BytesV(b) => Head(CHAR, 0) + EncInt(|b|, 0) + b
    case ListV(items) => EncInt(|items|, 0) + EncItems(items)
    case MapV(entries) => EncInt(|entries|, 0) + EncEntries(entries)
    case StructV(fields) => EncFields(fields) + Head(STRUCT_END, 0)
  }

  function Enc(v: Value, tag: byte): (s: seq<byte>)
    ensures |s| >= 1
    decreases v, 1
  {
    Head(KindOf(v), tag) + Body(v)
  }

  function EncItems(items: seq<Value>): seq<byte>
    decreases items
  {
    if items == [] then [] else Enc(items[0], 0) + EncItems(items[1..])
  }

  function EncEntries(es: seq<Entry>): seq<byte>
    decreases es
  {
    if es == [] then [] else EncEntry(es[0]) + EncEntries(es[1..])
  }

  function EncEntry(e: Entry): seq<byte>
    decreases e
  {
    Enc(e.key, 0) + Enc(e.val, 1)
  }

  function EncField(f: Field): seq<byte>
    decreases f
  {
    Enc(f.val, f.tag)
  }

  function EncFields(fs: seq<Field>): seq<byte>
    decreases fs
  {
    if fs == [] then [] else EncField(fs[0]) + EncFields(fs[1..])
  }
}
