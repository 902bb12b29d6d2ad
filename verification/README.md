# The JCE codec, the Observer protocol and the file watcher, in Dafny

The Android library keeps a daemon that watches an application's data directory and sends one HTTP
request when the directory is deleted. Client and daemon talk in JCE, a tag/type/value encoding. This
project models that system and proves what it is relied on for. Each part has three layers: the code in
its own form (classes with fields, loops over a cursor, linked nodes, a thread's steps), the function or
transition that says what one operation does, and theorems about those over all inputs, all runs or all
interleavings.

`dafny verify dfyconfig.toml` checks the project.

## The parts

**The codec** (`jni/jce/Jce.h`, `jni/jce/JceType.h`)

- `Bytes`: bytes, byte order, two's complement. `JceValue`: values and their encoding `Enc`.
- `JceReader`: the cursor of `JceInputStream` on arbitrary bytes (unchecked skips, swallowed exceptions,
  look-ahead), as functions of buffer and cursor that also count the heads peeked. `JceSchema`: reading by
  static type. `JceInputStream`: the stream class, each method tied to one of those functions.
- `JceLookup`: what reading should mean, on values alone: `Project` looks tags up and converts what it
  finds. No bytes and no cursor occur in it. `JceIntegers`, `JceSkipping`, `JceDecoding`, `JceRecords`,
  `JceUnknown`, `JceTruncation` prove the reader against it; `JceProgress` bounds typed reads on arbitrary
  bytes: what they pass, and how many heads they peek.
- `JceWire`: the encoding as a second, independent encoder with every number written out, and what the readers
  make of each type's number on any bytes.
- `JceWriting`: a write as the trace of its `writeBuf` calls, what a growing or a fixed buffer keeps of a
  trace, and the growth of `BufferWriter`. `JceOutputStream`: both buffers and the stream, in place on
  arrays.

**The protocol**: `ObserverMessages` (`ControlMsg`, `FilePath`, `ReqOnDel`) and `ObserverProtocol` (the
client's calls, the server's dispatch, the 4096-byte receive buffer, the hello).

**The watcher**: `EventQueue` (linked list and allocator ledger), `EventPump` (framing, classification,
filter, loops), `WatcherMachine` (the watcher thread interleaved step by step with `stopWatching` and
`setHttpRequestOnDelete`) and `WatcherScan` (every interleaving refines the pure scan).

**The handles**: `AutoPtr` (operations and the cascade of destructors as functions on an object graph),
`AutoPtrSurvival` (what a cascade frees, exactly, on every graph), `AutoPtrHeap` (the operations in
place) and `AutoPtrThreads` (any number of threads, interleaved at the steps count up, rebind, count down and
test, look at the flag, destroy a member, free).

**The JNI descriptors**: `JniSignature`, and `JniMeaning` (what each search finds, without the functions that
search), with a parser for section 4.3.3 of the Java Virtual Machine
Specification.

## Main results

1. `JceDecoding.ReadsBack`: for every value and every type, reading the encoding by type through the
   forward-only cursor gives exactly what lookup and conversion give, or the same exception, and leaves
   the cursor at the end of the value. `JceRecords.RecordIsLookup` and `UnknownFieldsDoNotMatter` say it of
   records; `RoundTrip` is the case of a value read at its own type.
   `JceWire.WireFormat`: the bytes are those of the format, number by number.
2. `JceSkipping.FieldSkips`: `skipField` moves over exactly one encoded value, whatever follows; hence the
   encoding is self-delimiting.
3. On arbitrary bytes every skip ends, never moves back, and peeks at most two heads per byte passed and
   two more, whatever counts the bytes claim: the `ensures` of `JceReader.SkipToTag`, `SkipBody`,
   `SkipToStructEnd`, `SkipField` and their neighbours. A typed read peeks at most the weight of its type, which
   is four for each type in it and two for each struct member, per byte and once more:
   `JceProgress.PeeksAreLinear`, and per byte passed `ReadWithin`.
4. `JceTruncation.PrefixDecoding`: a record cut short decodes exactly when the cut is clean, and then to
   its leading fields and defaults. `ObserverMessages.ControlPrefix` is the case of `ControlMsg`.
5. `JceUnknown.UnknownIsPreserved`: `readUnknown` then `writeUnknown` reproduces the original bytes, at top
   level and, by `UnknownInStructIsPreserved`, inside a struct.
6. `JceWriting.FixedBufferOutput`, `FixedStopsAtCall`, `GrowthIsLinear`: the two buffers compared, and the
   cost of growth.
7. `ObserverProtocol.EndToEnd` and `FitsReceiveBuffer`: any run of client calls leaves the server with the
   path and the last URL; a message fits the buffer if and only if its text has at most 4081 bytes, and a
   longer one throws in the server and changes nothing. `MessageBytes` gives the bytes of every message.
8. `EventPump.PumpIsScan` and `WatcherScan.RunIsScan`: the callbacks are a scan of the records, loop by loop
   and in every interleaving. `WatcherMachine.TerminalEventIsLast`, `CancelBeforeTest`: one terminal event,
   the last one, no access after deletion, silence after cancellation. What counts as cancelled, stopped or
   failed is read off the run itself (`RunIsItsLabels`).
9. `AutoPtr.RunKeepsInv`, `LiveIffReachable`, `DestroyLeavesReachable`: exact counts, no double free, and
   on graphs without cycles the live objects are exactly the reachable ones, over every run.
   `AutoPtrSurvival.CascadeIsExact`: on every graph, cycles and flagged objects included, a cascade leaves
   exactly the objects of groups that hold themselves up; `LeaksAreRings`: something is leaked if and only
   if there is a cycle out of reach. `AutoPtrThreads.SharedCountsAreExact`: in every interleaving of any
   number of threads a count is the number of handles and of references on their way to a handle or from one,
   nothing dead is used and nothing is freed twice; `AloneIsWhole`: an operation that is not interrupted is
   the operation of `AutoPtr`, from any state of any interleaving.
10. `JniSignature.SignatureParses`: what `Signature` prints parses to the types its names stand for, keywords
    by the specification's table, exactly
    when each name denotes a type of the grammar, a condition on the name and the context.

Some properties one might expect are false of the code. They are stated as what holds instead:

- A stopped observer can still receive `Error` (`WatcherMachine.StoppedCanGetError` gives the run,
  `StoppedGetsAtMostError` bounds it).
- A cut after one byte of a two-byte head (tags from 15 on) also decodes: `CleanCut` includes it. The
  tags of `ControlMsg` are below 15, so there the cut must fall on a field boundary. `HalfHeadIsAbsent` is
  such a cut.
- An assignment can free the object it assigns. `AutoPtrSurvival.AssignCanFreeTarget` gives the run: the
  handle is a member of an object that is kept alive only by a cycle through the old object, and the object
  assigned is reachable only through it. `AssignKeepsTarget` is the exact condition, on the graph before
  anything is counted down. `AssignIsSafe` gives three conditions under which it never happens: the handle is
  no member, or its owner is reachable without it, or the graph has no cycle.
- What `Signature` prints need not be a descriptor. A `void` parameter (`VoidParameter`) or array is printed
  as it is; so is the dot of an inner class whose outer class was not imported (`UnimportedInnerClass`) and
  of a variable-arity parameter; and in the unnamed package the class gets a leading slash.
  `ResolvesToFieldType` and `SignatureParses` are equivalences with the exact condition, branch by branch.
- `ControlMsg::readFrom` keeps an old `vbData` when the field is absent. `ControlSlots` has the old bytes
  as its default; the results about decoding are for a newly constructed message, as every caller has it.
- Objects that point at each other are never freed (`AutoPtr.CycleLeaks`), and nothing else leaks
  (`AutoPtrSurvival.LeaksAreRings`).

Where comments and code differ the code is followed. `TC_AutoPtr` is described as thread-safe: counting is
atomic, but an assignment is several steps, so `AutoPtrThreads` proves it for threads that use handles of their
own, and members no other thread is writing. `TC_Atomic::add` and
`sub` are documented as taking an amount and ignore it; handles count by one. The comment in `ThreadFunc`
calls its last mask unknown; it is also where combined masks end up (`EventPump.ClassifyMeans`).

## Model

| member | source | states |
|---|---|---|
| Bytes.HtonllReverses | jni/jce/JceType.h:84-92 | swapping the two words and converting each reverses all eight bytes, and is its own inverse |
| Bytes.ReverseIsBig | jni/jce/JceType.h:93-103 | a word reversed in little-endian memory is the number in big-endian order |
| JceValue.WireRoundTrip | jni/jce/Jce.h:1220-1329 | a word converted for the wire and back is the same word, at every width |
| JceValue.WireIsBigEndian | jni/jce/Jce.h:1265-1309 | at every width what goes out is the big-endian number |
| JceWire.WireFormat | jni/jce/Jce.h:1207-1437 | every value is written as in a reference encoder that has all numbers written out: heads, widths, digits, counts, tags, the StructEnd |
| JceWire.FirstByte | jni/jce/Jce.h:82-99 | the first byte is sixteen times the tag and the type's number, from tag 15 on 240 and the number with the tag behind it |
| JceWire.DigitsAre | jni/jce/Jce.h:1265-1309 | two and four bytes of a number are its digits to the base 256, the highest first |
| JceWire.StringCalls | jni/jce/Jce.h:1331-1353 | a string is a head of type 6 and one byte of length, from 256 bytes on of type 7 and four, and is refused above 104857600 bytes |
| JceWire.NumberCalls | jni/jce/Jce.h:1220-1329 | the writeBuf calls of numbers and of floating point numbers |
| JceWire.BytesCalls | jni/jce/Jce.h:1402-1416 | the writeBuf calls of a vector of bytes |
| JceWire.PeekedIsThere | jni/jce/Jce.h:125-141 | on any bytes: a head that is peeked is the one there, and none is peeked exactly when the buffer ends before or inside it |
| JceWire.SkipMeans | jni/jce/Jce.h:518-596 | on any bytes: how far each type's number skips, and which are refused |
| JceWire.SimpleListSkips | jni/jce/Jce.h:568-582 | on any bytes: a simple list must hold Chars, and its count is what is skipped |
| JceWire.ElementsSkip | jni/jce/Jce.h:552-567 | on any bytes: a count, and once or twice as many fields |
| JceWire.IntMeans | jni/jce/Jce.h:646-808 | on any bytes: what each type's number reads as at each width, with its sign, or a mismatch |
| JceWire.OthersMismatch | jni/jce/Jce.h:639-1203 | on any bytes: a read accepts exactly its types' numbers, every other is a mismatch |
| JceWire.FloatMeans | jni/jce/Jce.h:815-866 | on any bytes: floating point numbers |
| JceWire.StringMeans | jni/jce/Jce.h:880-921 | on any bytes: strings, with the limit of 104857600 |
| JceWire.SimpleListMeans | jni/jce/Jce.h:1034-1056 | on any bytes: a vector of bytes from a simple list, with each exception |
| JceWire.CharListMeans | jni/jce/Jce.h:1059-1074 | and from a list of Chars |
| JceWire.AbsentMeans | jni/jce/Jce.h:1182-1203 | a value that must be there and is not is RequireNotExist |
| JceWire.IntegerTable | jni/jce/Jce.h:639-767 | what a number becomes at each of the eight integer types |
| JceIntegers.WidthIsLeast | jni/jce/Jce.h:1220-1311 | the chain of writers stops at the least width that holds the number: a width holds it if and only if it is at least that |
| JceIntegers.IntIsShortest | jni/jce/Jce.h:1220-1311 | the payload is never longer than any width that holds the number, is empty exactly for zero, and is the big-endian two's complement |
| JceIntegers.IntReadsBack | jni/jce/Jce.h:646-808 | reading at a signed width gives the number if it fits that width and a mismatch if it does not |
| JceIntegers.IntEncodingIsPrefixFree | jni/jce/Jce.h:1220-1311 | two numbers never share an encoding, not even as a prefix |
| JceIntegers.HeadPeek | jni/jce/Jce.h:125-179 | a head written with any type and tag is peeked back, in one byte below tag 15 and two from there |
| JceReader.PeekHead | jni/jce/Jce.h:125-141 | a head is one or two bytes and lies inside the buffer |
| JceReader.SkipToTag | jni/jce/Jce.h:478-496 | ends on all bytes, never moves back, peeks at most two heads per byte passed and two more; when it finds the tag a whole head is ahead |
| JceReader.SkipToStructEnd | jni/jce/Jce.h:499-507 | ends on all bytes, with the same bound |
| JceReader.SkipField | jni/jce/Jce.h:510-515 | a skip that does not throw passes at least one byte of the buffer, which is what bounds every counted loop |
| JceReader.SkipCount | jni/jce/Jce.h:552-567 | a loop of skips is bounded by the bytes passed, not by the count it was given |
| JceReader.SkipBody | jni/jce/Jce.h:518-596 | each case of the switch keeps the bound |
| JceReader.SkipElements | jni/jce/Jce.h:552-567 | a map or list count claimed by the bytes does not break the bound; a negative product means no turn |
| JceReader.SkipSimpleList | jni/jce/Jce.h:568-582 | the same for a simple list, whose length converted to size_t may carry the cursor beyond the end |
| JceReader.ReadInt | jni/jce/Jce.h:725-760 | a number that was read passed at least one byte and fits the width asked for |
| JceReader.ReadUnknown | jni/jce/Jce.h:606-636 | never moves back, peeks at most two heads per byte passed and two more; when it does not throw it ends at the last field it passed |
| JceSkipping.FieldSkips | jni/jce/Jce.h:510-515 | skipField on an encoded value, with any bytes before and after, ends exactly at its end |
| JceSkipping.BodySkips | jni/jce/Jce.h:518-596 | the same after the head, for every kind of value, by mutual induction over lists, maps and structs |
| JceSkipping.FieldsSkip | jni/jce/Jce.h:499-507 | skipToStructEnd passes the fields of a struct and its end, nested structs included, and stops there |
| JceSkipping.EncodingIsSelfDelimiting | jni/jce/Jce.h:1207-1437 | no encoded value is a proper prefix of another |
| JceDecoding.SeekFields | jni/jce/Jce.h:478-496 | skipToTag lands on the first field whose tag is not below the wanted one and says whether it is the one |
| JceDecoding.LookupSeek | jni/jce/Jce.h:486-487 | where the seek stops decides the lookup, in an ascending record |
| JceDecoding.LookupAfter | jni/jce/Jce.h:483-490 | passing the fields up to one tag loses no later tag |
| JceDecoding.ReadsBack | jni/jce/Jce.h:639-1203 | reading any written value at any type is looking up and converting it; the cursor ends at its end, the exception is the predicted one |
| JceDecoding.BodyReadsBack | jni/jce/Jce.h:639-1203 | the same after the head |
| JceDecoding.SlotBack | jni/jce/Jce.h:1184-1202 | one optional or required read in a record is one lookup, and leaves the fields above its tag ahead |
| JceDecoding.SlotsBack | jni/jce/Jce.h:478-596 | a readFrom with ascending tags on an ascending record is one lookup per field; unknown fields before, between and after change nothing |
| JceDecoding.StructInside | jni/jce/Jce.h:1194-1195 | inside a struct the same, and skipToStructEnd then passes what was not read |
| JceDecoding.ListSize | jni/jce/Jce.h:1102-1110 | the size guard never rejects a written list: every element takes a byte |
| JceDecoding.MapSize | jni/jce/Jce.h:990-997 | the same for maps |
| JceRecords.RecordIsLookup | jni/jce/Jce.h:478-596 | a record at top level read by any ascending list of tags is a lookup per tag |
| JceRecords.UnknownFieldsDoNotMatter | jni/jce/Jce.h:478-596 | two records that agree on the wanted tags are read alike |
| JceRecords.ConformsProjects | jni/jce/Jce.h:639-1203 | a value of a type is its own conversion to that type |
| JceRecords.RoundTrip | jni/jce/Jce.h:876-1203 | a written value read at its own type is the same value, and the cursor is at its end |
| JceRecords.RecordRoundTrip | jni/jce_header/Observer.h:63-79 | a struct written by writeTo and read by readFrom is the same struct |
| JceRecords.MapOrderDoesNotMatter | jni/jce/Jce.h:998-1006 | the same entries written in any two orders are read as the same map, if in one order they convert and have distinct keys |
| JceRecords.MapKeepsFirst | jni/jce/Jce.h:1000-1006 | of entries with equal keys the first one counts, and the others are not kept |
| JceRecords.CastLands | jni/jce/Jce.h:639-767 | the cast back to Bool or an unsigned type lands in range, changes no number in range, and takes the remainder |
| JceRecords.NumbersAreInRange | jni/jce/Jce.h:639-808 | whatever the bytes, a number read is one its type can hold |
| JceRecords.InsertKeepsDistinct | jni/jce/Jce.h:1005 | inserting keeps the keys distinct |
| JceRecords.InsertKeepsFirst | jni/jce/Jce.h:1005 | inserting entries one by one gives the map in which the first of equal keys counts |
| JceRecords.BytesFormDoesNotMatter | jni/jce/Jce.h:1034-1074 | bytes sent as a simple list and as a list of Chars are read as the same vector |
| JceUnknown.UnknownPasses | jni/jce/Jce.h:606-636 | readUnknown passes exactly the fields above the last known tag, up to the end of the buffer or a StructEnd |
| JceUnknown.RestIsUnknown | jni/jce/Jce.h:606-609 | after reading the known fields the cursor stands at the first unknown one |
| JceUnknown.UnknownIsPreserved | jni/jce/Jce.h:606-636 | known fields written again, then writeUnknown, reproduce the record byte for byte |
| JceUnknown.UnknownInStructIsPreserved | jni/jce/Jce.h:606-636 | inside a struct too the captured bytes are those of the unknown fields, the StructEnd is left, and skipToStructEnd goes on behind it |
| JceTruncation.CutRead | jni/jce/Jce.h:206-215 | a read at a value cut short finds nothing if the head is cut, and throws otherwise, at every type and depth |
| JceTruncation.CutInside | jni/jce/Jce.h:499-507 | inside a struct every cut throws |
| JceTruncation.CutRecord | jni/jce_header/Observer.h:70-79 | a cut record of optional fields: the whole fields and defaults, or an exception |
| JceTruncation.PrefixDecoding | jni/jce_header/Observer.h:70-79 | decoding a prefix succeeds if and only if the cut is clean, and gives the fields that lie whole in it and defaults |
| JceTruncation.HalfHeadIsAbsent | jni/jce/Jce.h:131-135 | a field of tag 15 cut after one byte reads as absent |
| JceProgress.ItemsPay | jni/jce/Jce.h:1102-1112 | on arbitrary bytes a vector of n elements read without an exception passed at least n bytes |
| JceProgress.EntriesPay | jni/jce/Jce.h:990-1006 | and a map read in n turns at least 2n |
| JceProgress.ReadWithin | jni/jce/Jce.h:639-1203 | the heads a typed read peeks on arbitrary bytes are at most the weight of its type per byte passed; an absent field costs two per byte passed and two more, an exception the weight per byte left and once more |
| JceProgress.PeeksAreLinear | jni/jce/Jce.h:639-1203 | so at every type the heads peeked are linear in the bytes left and in the slots asked for |
| JceProgress.ReadPays | jni/jce/Jce.h:639-1203 | on arbitrary bytes a read at any type never moves back, and passes a byte if it found its field |
| JceInputStream.InputStream.PeekBuf | jni/jce/Jce.h:206-215 | the bytes at an offset, or the exception, and no movement |
| JceInputStream.InputStream.ReadBuf | jni/jce/Jce.h:199-203 | the bytes and the cursor behind them, or the exception and the cursor as it was |
| JceInputStream.InputStream.PeekHead | jni/jce/Jce.h:125-141 | the head of the specification, counted once |
| JceInputStream.InputStream.ReadHead | jni/jce/Jce.h:117-121 | the head, and the cursor behind it |
| JceInputStream.InputStream.SkipToTag | jni/jce/Jce.h:478-496 | the loop ends where the specification says, with the same answer and as many peeks; a decoding exception is swallowed |
| JceInputStream.InputStream.SkipToStructEnd | jni/jce/Jce.h:499-507 | cursor, exception and peeks of the specification |
| JceInputStream.InputStream.SkipField | jni/jce/Jce.h:510-515 | cursor, exception and peeks of the specification |
| JceInputStream.InputStream.SkipBody | jni/jce/Jce.h:518-596 | cursor, exception and peeks of the specification, for all sixteen types |
| JceInputStream.InputStream.SkipElements | jni/jce/Jce.h:552-567 | the count, then the loop: cursor, exception and peeks of the specification |
| JceInputStream.InputStream.SkipTimes | jni/jce/Jce.h:556-557 | the counted loop, ending early on an exception |
| JceInputStream.InputStream.SkipSimpleList | jni/jce/Jce.h:568-582 | cursor, exception and peeks of the specification |
| JceInputStream.InputStream.ReadUnknown | jni/jce/Jce.h:606-636 | the bytes between the start and the last field passed |
| JceInputStream.InputStream.ReadChar | jni/jce/Jce.h:646-675 | value, exception, cursor and peeks; the target is kept when the field is absent |
| JceInputStream.InputStream.ReadShort | jni/jce/Jce.h:684-716 | the same for Short |
| JceInputStream.InputStream.ReadInt32 | jni/jce/Jce.h:725-760 | the same for Int32 |
| JceInputStream.InputStream.ReadInt64 | jni/jce/Jce.h:769-808 | the same for Int64 |
| JceInputStream.InputStream.ReadInteger | jni/jce/Jce.h:639-767 | Bool and the unsigned types, through the signed type and back |
| JceInputStream.InputStream.Read | jni/jce/Jce.h:1182-1203 | value or exception, cursor and peeks, for every overload |
| JceInputStream.InputStream.ReadFloat | jni/jce/Jce.h:815-831 | value or exception and cursor, Float |
| JceInputStream.InputStream.ReadDouble | jni/jce/Jce.h:846-866 | value or exception and cursor, Double |
| JceInputStream.InputStream.ReadString | jni/jce/Jce.h:880-921 | value or exception and cursor, with the length limit |
| JceInputStream.InputStream.ReadBytes | jni/jce/Jce.h:1030-1081 | value or exception, cursor and peeks, both forms |
| JceInputStream.InputStream.ReadList | jni/jce/Jce.h:1096-1121 | value or exception, cursor and peeks, with the size guard |
| JceInputStream.InputStream.ReadElement | jni/jce/Jce.h:1110-1112 | a required read into a new target, with the heads it peeks |
| JceInputStream.InputStream.ReadItems | jni/jce/Jce.h:1110-1112 | the loop over the elements |
| JceInputStream.InputStream.ReadMap | jni/jce/Jce.h:984-1015 | value or exception, cursor and peeks, with the size guard |
| JceInputStream.InputStream.ReadEntries | jni/jce/Jce.h:1000-1006 | the loop over the entries |
| JceInputStream.InputStream.ReadStruct | jni/jce/Jce.h:1186-1195 | readFrom and then the end of the struct |
| JceInputStream.InputStream.ReadFrom | jni/jce_header/Observer.h:70-79 | the reads of a generated struct in turn, over reset members |
| JceWriting.EmitYields | jni/jce/Jce.h:1215-1436 | writing a value that fits throws nothing, and its writeBuf calls add up to the encoding the reader is proved against |
| JceWriting.DeliverThen | jni/jce/Jce.h:446-455 | delivering two writes one after the other, the second only if the first did not throw, is delivering their concatenated calls |
| JceWriting.GrowingKeepsAll | jni/jce/Jce.h:374-379 | a growing buffer keeps every call |
| JceWriting.FixedMatchesGrowing | jni/jce/Jce.h:446-455 | a fixed buffer with room for all of it does the same |
| JceWriting.FixedStopsAtCall | jni/jce/Jce.h:446-455 | without that room it throws at the first call that does not fit and keeps exactly the calls before it |
| JceWriting.FixedBufferOutput | jni/jce/Jce.h:446-455 | for a value: the growing buffer's output if it fits, else an exception and a proper prefix of that output |
| JceWriting.GrowthIsLinear | jni/jce/Jce.h:360-379 | over any sequence of writes and resets: the contents are the writes since the last reset, the capacity is at most twice the longest length, and growth has copied no more bytes than the capacity |
| JceOutputStream.BufferWriter.Reserve | jni/jce/Jce.h:360-371 | contents kept; the memory replaced by one of twice the need exactly when it was too small |
| JceOutputStream.BufferWriter.WriteBuf | jni/jce/Jce.h:374-379 | contents, capacity, bytes copied and peak move as one Append |
| JceOutputStream.BufferWriter.Reset | jni/jce/Jce.h:372 | contents dropped, memory kept |
| JceOutputStream.BufferWriterBuff.WriteBuf | jni/jce/Jce.h:446-455 | appends if it fits, else refuses and keeps the contents |
| JceOutputStream.BufferWriterBuff.Reset | jni/jce/Jce.h:444 | length zero, memory kept |
| JceOutputStream.OutputStream.WriteHead | jni/jce/Jce.h:164-179 | delivers a head in one call or two |
| JceOutputStream.OutputStream.WriteChar | jni/jce/Jce.h:1220-1241 | delivers the number's canonical trace, whichever overload writes it |
| JceOutputStream.OutputStream.WriteShort | jni/jce/Jce.h:1248-1267 | the same trace |
| JceOutputStream.OutputStream.WriteInt32 | jni/jce/Jce.h:1274-1289 | the same trace |
| JceOutputStream.OutputStream.WriteInt64 | jni/jce/Jce.h:1296-1311 | the same trace |
| JceOutputStream.OutputStream.WriteBool | jni/jce/Jce.h:1215-1218 | the same trace, of 0 or 1 |
| JceOutputStream.OutputStream.WriteUInt8 | jni/jce/Jce.h:1243-1246 | the same trace |
| JceOutputStream.OutputStream.WriteUInt16 | jni/jce/Jce.h:1269-1272 | the same trace |
| JceOutputStream.OutputStream.WriteUInt32 | jni/jce/Jce.h:1291-1294 | the same trace |
| JceOutputStream.OutputStream.WriteString | jni/jce/Jce.h:1331-1353 | delivers a head of type 6 or 7, the length in one byte or four and the bytes, or throws before the first call if the string is too long |
| JceOutputStream.OutputStream.WriteUnknown | jni/jce/Jce.h:1211-1214 | delivers the captured bytes in one call |
| JceOutputStream.OutputStream.Write | jni/jce/Jce.h:1215-1436 | delivers the value's trace: what reached the buffer and the exception are those of the trace |
| JceOutputStream.OutputStream.WriteBytes | jni/jce/Jce.h:1404-1415 | two heads, the length, the bytes |
| JceOutputStream.OutputStream.WriteList | jni/jce/Jce.h:1380-1390 | head, count, elements |
| JceOutputStream.OutputStream.WriteMap | jni/jce/Jce.h:1364-1377 | head, count, entries |
| JceOutputStream.OutputStream.WriteStruct | jni/jce/Jce.h:1424-1436 | begin, fields, end |
| JceOutputStream.OutputStream.WriteItems | jni/jce/Jce.h:1387-1389 | the loop over the elements, stopping at an exception |
| JceOutputStream.OutputStream.WriteEntries | jni/jce/Jce.h:1371-1376 | the loop over the entries, stopping at an exception |
| ObserverMessages.ControlRoundTrip | jni/jce_header/Observer.h:63-79 | a message decoded from its own encoding is the same message |
| ObserverMessages.StringRoundTrip | jni/jce_header/Observer.h:113-123 | the same for FilePath and ReqOnDel |
| ObserverMessages.ControlPrefix | jni/jce_header/Observer.h:70-79 | a prefix of an encoded message decodes if and only if it ends on a field boundary, and then to its leading members and defaults |
| ObserverMessages.DecControl | jni/jce_header/Observer.h:70-79 | whatever the bytes, what is decoded is a control type, a string and a byte vector |
| ObserverMessages.AbsentMembers | jni/jce_header/Observer.h:54-79 | absent members read as Hello, an empty sequence number and the old data |
| ObserverMessages.ControlMsg.WriteTo | jni/jce_header/Observer.h:63-69 | delivers the three fields' trace; the message is unchanged |
| ObserverMessages.ControlMsg.ReadFrom | jni/jce_header/Observer.h:70-79 | the members are those of the specification, starting from the old vbData, or its exception |
| ObserverMessages.StringMsg.WriteTo | jni/jce_header/Observer.h:113-117 | delivers the string under tag 0 |
| ObserverMessages.StringMsg.ReadFrom | jni/jce_header/Observer.h:118-123 | the string, empty if absent, or the exception |
| ObserverProtocol.EncodeText | jni/util/ProtocolUtil.h:28-34 | the bytes of the struct, or the exception of a string too long, exactly then |
| ObserverProtocol.EncodeControl | jni/observer/NativeFileObserver.cpp:54-60 | the bytes of the message around the given data |
| ObserverProtocol.BuildMessage | jni/observer/NativeFileObserver.cpp:44-88 | the nested message, or the exception exactly when the text is too long |
| ObserverProtocol.MessageBytes | jni/observer/NativeFileObserver.cpp:41-89 | all bytes of a path message, of a URL message and of the hello |
| ObserverProtocol.BackendServer.Handle | jni/observer/BackendServer.cpp:228-278 | the dispatch on the observer object: reply, exception and state of the specification; a replaced observer is cancelled and stopped, the new one watches; other messages leave both flags alone |
| ObserverProtocol.UninstallMonitor.Start | src/com/tencent/qlauncher/uninstall/UninstallMonitor.java:35-46 | the path is sent on first use only |
| ObserverProtocol.UninstallMonitor.SetHttpRequestOnUninstall | src/com/tencent/qlauncher/uninstall/UninstallMonitor.java:22-33 | one client call: the path if it was not sent, then the URL if it is not null |
| ObserverProtocol.RunSendsPathFirst | src/com/tencent/qlauncher/uninstall/UninstallMonitor.java:22-46 | any run of calls sends one path, first, and then one request per URL that is not null |
| ObserverProtocol.EndToEnd | jni/observer/BackendServer.cpp:228-278 | from any server state, the messages of any run leave the path sent and the last URL, with no exception and no reply |
| ObserverProtocol.UrlBeforePathIsLost | jni/observer/BackendServer.cpp:261-272 | a URL that comes before any path has no effect |
| ObserverProtocol.HandlingIsAtomic | jni/observer/BackendServer.cpp:228-278 | on any bytes: an exception changes nothing, a reply echoes the bytes and changes nothing, and a URL is given up only for a new path |
| ObserverProtocol.OtherTypesDoNothing | jni/observer/BackendServer.cpp:239-278 | any other control type, and a URL without an observer, does nothing |
| ObserverProtocol.MessageLength | jni/observer/NativeFileObserver.cpp:54-60 | the exact length of a message |
| ObserverProtocol.FitsReceiveBuffer | jni/observer/BackendServer.cpp:22 | a message fits the receive buffer if and only if its text has at most 4081 bytes |
| ObserverProtocol.TooLongThrows | jni/observer/BackendServer.cpp:198-212 | a message that does not fit throws in the server and changes nothing |
| ObserverProtocol.ShortRunFits | jni/observer/BackendServer.cpp:198-212 | with texts of at most 4081 bytes every message of a run arrives whole |
| ObserverProtocol.EchoMeansAlive | jni/observer/BackendServer.cpp:66-91 | a server in any state echoes the hello unchanged and is taken to be alive; an empty reply is taken to be dead |
| ObserverProtocol.OnlyHelloIsAlive | jni/observer/BackendServer.cpp:82-90 | no message of another type is taken for the echo |
| EventQueue.Queue.Enqueue | jni/observer/event_queue.c:45-57 | the list stays a chain from head to tail and the sequence grows at the end |
| EventQueue.Queue.Dequeue | jni/observer/event_queue.c:59-72 | null exactly when empty, else the first entry unlinked and the rest in order |
| EventQueue.Queue.Destroy | jni/observer/event_queue.c:29-43 | every entry still linked is freed, each while it is live, and nothing else; the queue is given back and admits no further operation |
| EventQueue.Queue.IsEmpty | jni/observer/event_queue.c:13-16 | the head is null exactly when the sequence is empty |
| EventPump.RecordReads | jni/observer/FileObserver.cpp:108-115 | the record at an offset and the offset of the next are read back from the buffer |
| EventPump.ClassifyMeans | jni/observer/FileObserver.cpp:138-207 | bits from 0x10000 up (IN_ISDIR among them) and the bit 0x1000 are ignored; of what is left eight values name an event, by the table, and every other value nothing |
| EventPump.FilterMeans | jni/observer/FileObserver.cpp:214-225 | without a filter everything passes; with one, what has its bit, by the table of Event |
| EventPump.LayoutIs | jni/observer/FileObserver.cpp:108-115 | where the four words and the name lie in a record |
| EventPump.OnlyTerminalPass | jni/observer/FileDeleteObserver.cpp:16 | the filter of the delete observer lets Delete and Error pass and nothing else |
| EventPump.Watcher.Enframe | jni/observer/FileObserver.cpp:106-117 | a buffer of records becomes a queue of the same records in order, one new entry each |
| EventPump.Watcher.HandleOne | jni/observer/FileObserver.cpp:125-230 | the entry is freed before the stop is looked at; what is delivered and whether the loop goes on |
| EventPump.Watcher.Handle | jni/observer/FileObserver.cpp:125-232 | one batch delivers its scan, and every entry of the batch is freed exactly once, early exits included |
| EventPump.Watcher.RunBatch | jni/observer/FileObserver.cpp:98-232 | one turn of the outer loop, leaving no entry allocated |
| EventPump.Watcher.ThreadFunc | jni/observer/FileObserver.cpp:82-239 | the outer loop with its failure count delivers the scan of all reads and leaks nothing |
| EventPump.BatchIsCut | jni/observer/FileObserver.cpp:125-232 | a batch delivers what passes the filter among its records cut at the first Delete or at the stop |
| EventPump.CutOffAppend | jni/observer/FileObserver.cpp:125-232 | the cut of two batches is the cut of the first, and then of the second if the first had none |
| EventPump.PumpIsScan | jni/observer/FileObserver.cpp:82-239 | over any sequence of reads: concatenate, classify, filter, cut at the first Delete or at the stop; and one Error if ten reads failed first |
| WatcherMachine.RunKeepsInv | jni/observer/FileDeleteObserver.cpp:43-81 | every step of either thread keeps the invariant |
| WatcherMachine.RunIsItsLabels | jni/observer/FileDeleteObserver.cpp:30-41 | in every run: cancelled exactly if stopWatching has set it, stopped likewise, the URL the last one set, the failures and masks those of the reads |
| WatcherMachine.StepsAreThere | jni/observer/FileObserver.cpp:82-102 | stopWatching and the setter can run while the observer lives, a read can fail or return, and elsewhere the thread can go on |
| WatcherMachine.LooksAreTheRuns | jni/observer/FileObserver.cpp:26-31 | a record is checked with the file there or gone as the run says |
| WatcherMachine.RequestsNeedUrl | jni/observer/FileDeleteObserver.cpp:83-89 | no request succeeds without a URL; with one and an answer the first succeeds and is the only one |
| WatcherMachine.DeadIsLeftAlone | jni/observer/FileDeleteObserver.cpp:127-131 | once observer and delegate are deleted the thread is at no step that uses them |
| WatcherMachine.BadTouchIsSeen | jni/observer/FileDeleteObserver.cpp:127-131 | and such a step would be noticed and not forgotten |
| WatcherMachine.TerminalEventIsLast | jni/observer/FileObserver.cpp:82-239 | in every interleaving: at most one terminal event, the last callback; no access to observer or delegate after deletion; deletion only after that event, and always by the thread's end |
| WatcherMachine.CancelledMeansSilent | jni/observer/FileDeleteObserver.cpp:43-81 | a Delete found cancelled sends nothing and stops no server; found uncancelled it sends until one request succeeds, ten at most, then stops the server; an Error always stops it |
| WatcherMachine.CancelSticks | jni/observer/FileDeleteObserver.cpp:30-35 | mCancelled once set stays set, in every interleaving |
| WatcherMachine.CancelBeforeTest | jni/observer/FileDeleteObserver.cpp:46-54 | if stopWatching has set it in the run before onEvent tests it, no request is ever sent and only an Error can stop the server |
| WatcherMachine.StoppedGetsAtMostError | jni/observer/FileObserver.cpp:211-239 | after stopWatching in the run, whenever that was, only what had passed the stop check is still delivered, and possibly one Error; when the thread has ended, the Error if and only if ten reads failed |
| WatcherMachine.StoppedCanGetError | jni/observer/FileObserver.cpp:236-239 | and that can happen |
| WatcherScan.RunKeepsScan | jni/observer/FileObserver.cpp:125-231 | every step keeps what was delivered and owed equal to the scan of what was checked |
| WatcherScan.RunIsScan | jni/observer/FileObserver.cpp:82-239 | in every interleaving the callbacks are the scan of the records checked, which up to the cut are the records read, in order and none left out |
| WatcherScan.StopEndsBatch | jni/observer/FileObserver.cpp:211-212 | in every interleaving, once the observer is stopped at most one record per read is looked at: the rest of the batch is dropped |
| WatcherScan.DeleteObserverHears | jni/observer/FileDeleteObserver.cpp:12-18 | the delete observer hears nothing, or one Delete exactly when a record meaning deletion was checked before the stop, or one Error, never both |
| AutoPtr.DecRefWorks | jni/util/tc_autoptr.h:60-67 | a decRef restores exact counts, through a whole cascade, and only frees, lowers counts and destroys members of freed objects |
| AutoPtr.DestroyWorks | jni/util/tc_autoptr.h:218-224 | a handle's destructor does the same and destroys the handle |
| AutoPtr.AssignKeepsInv | jni/util/tc_autoptr.h:232-304 | assignment keeps exact counts, and the handle holds the new pointer if it survives |
| AutoPtrSurvival.CascadeIsExact | jni/util/tc_autoptr.h:60-67 | on every graph a decRef leaves exactly the objects of groups in which each is flagged, idle, or held by a variable or a member of the group |
| AutoPtrSurvival.DestroyIsExact | jni/util/tc_autoptr.h:218-224 | the same of a destructor, over every run |
| AutoPtrSurvival.FlaggedSurvives | jni/util/tc_autoptr.h:60-67 | an object flagged with true lives on in every run, its last handle gone included, until it is flagged with false |
| AutoPtrSurvival.LastHandleFrees | jni/util/tc_autoptr.h:60-67 | an object whose last handle is destroyed is freed exactly if it is not flagged |
| AutoPtrSurvival.AssignKeepsTarget | jni/util/tc_autoptr.h:232-304 | the object assigned, like any other, survives if and only if it is held up in the rebound graph; the handle lives on exactly if it is no member or its owner lives on, and then holds it |
| AutoPtrSurvival.AssignIsSafe | jni/util/tc_autoptr.h:232-304 | the object assigned survives and the handle holds it, if the handle is no member, or its owner is reachable without it, or the graph has no cycle |
| AutoPtrSurvival.AssignCanFreeTarget | jni/util/tc_autoptr.h:232-250 | a run after which an assignment frees the very object it assigns |
| AutoPtr.SwapKeepsInv | jni/util/tc_autoptr.h:390-393 | swapping exchanges what the two handles hold and changes nothing else, keeps exact counts without counting, and undoes itself |
| AutoPtr.ApplyHasEffect | jni/util/tc_autoptr.h:173-304 | what each of the ten operations does to handles, counts, flags and members, and what it leaves alone, said without the functions that do it |
| AutoPtr.ReleaseUndoesAdopt | jni/util/tc_autoptr.h:147-157 | a handle taken in and let go leaves everything as it was |
| AutoPtr.AdoptKeepsInv | jni/util/tc_autoptr.h:147-157 | a container that is a member takes in a handle: counts stay exact |
| AutoPtr.ReleaseKeepsInv | jni/util/tc_autoptr.h:147-157 | and when it lets go of one, which then is no member of any object |
| AutoPtr.RunKeepsInv | jni/util/tc_autoptr.h:173-304 | over every run: counts are the numbers of live handles, no handle dangles, nothing is freed twice or used after |
| AutoPtr.LiveIsReachable | jni/util/tc_autoptr.h:60-67 | without cycles every live object has a path from an outside handle |
| AutoPtr.LiveIffReachable | jni/util/tc_autoptr.h:173-304 | after any run that left no cycle, live means reachable from outside handles, both ways |
| AutoPtr.PathSurvives | jni/util/tc_autoptr.h:218-224 | nothing on a path from another outside handle is freed |
| AutoPtr.DestroyLeavesReachable | jni/util/tc_autoptr.h:218-224 | the cascade of a destructor leaves exactly what is still reachable |
| AutoPtr.CycleLeaks | jni/util/tc_autoptr.h:60-67 | two objects that point at each other are never freed |
| AutoPtrSurvival.LeaksAreRings | jni/util/tc_autoptr.h:60-67 | over every run that flags nothing, some live object is out of reach if and only if there is a ring of live objects out of reach |
| AutoPtrHeap.Heap.IncRef | jni/util/tc_autoptr.h:55 | one count up |
| AutoPtrHeap.Heap.DecRef | jni/util/tc_autoptr.h:60-67 | the count and flag updated in place, and the delete, come to the cascade of the specification |
| AutoPtrHeap.Heap.Delete | jni/util/tc_autoptr.h:60-67 | the members' destructors one by one, then the memory |
| AutoPtrHeap.Heap.Destroy | jni/util/tc_autoptr.h:218-224 | the destructor on the heap |
| AutoPtrHeap.Heap.Create | jni/util/tc_autoptr.h:88-97 | a new object, count zero, and the handle it is given to |
| AutoPtrHeap.Heap.Make | jni/util/tc_autoptr.h:173-213 | the constructors |
| AutoPtrHeap.Heap.Assign | jni/util/tc_autoptr.h:232-304 | increment the new, rebind, then decrement the old; exact counts again at the end |
| AutoPtrHeap.Heap.Swap | jni/util/tc_autoptr.h:390-393 | each handle holds what the other held, all others what they held, no count touched |
| AutoPtrHeap.Heap.Adopt | jni/util/tc_autoptr.h:147-157 | the object's members with one handle more |
| AutoPtrHeap.Heap.Release | jni/util/tc_autoptr.h:147-157 | and with one less |
| AutoPtrHeap.Heap.SetNoDelete | jni/util/tc_autoptr.h:81 | the flag has the value given and nothing else changes |
| AutoPtrThreads.StepKeeps | jni/util/tc_autoptr.h:60-67 | every step of every thread keeps counts exact up to what is owed, and a count at zero exactly while one thread tests or deletes |
| AutoPtrThreads.RunKeeps | jni/util/tc_autoptr.h:60-67 | and so does every interleaving, from any state where that holds |
| AutoPtrThreads.QuietAllows | jni/util/tc_autoptr.h:173-304 | between operations a thread may copy, assign, drop and give away its handles and make objects |
| AutoPtrThreads.GiveMoves | jni/util/tc_autoptr.h:147-157 | a handle given away is the other thread's, and nothing else has changed |
| AutoPtrThreads.SharedCountsAreExact | jni/util/tc_atomic.h:117-124 | in every interleaving of any number of threads: a count is the live handles and the references between a count up and its binding, or between an overwriting or destructor and its count down; no dead object or handle is used, nothing is freed twice, no two threads delete one object |
| AutoPtrThreads.HeldIsAlive | jni/util/tc_autoptr.h:60-67 | while some handle holds an object, no thread is testing or deleting it |
| AutoPtrThreads.QuietIsSound | jni/util/tc_autoptr.h:173-304 | when no thread is in an operation the shared heap satisfies the invariant of whole operations |
| AutoPtrThreads.QuietLiveIffReachable | jni/util/tc_autoptr.h:173-304 | and without cycles the live objects are exactly those reachable from the threads' handles, however they were interleaved |
| AutoPtrThreads.AloneIsWhole | jni/util/tc_autoptr.h:173-304 | an operation begun in any state of an interleaving and not interrupted ends, and does to the heap exactly what the operation of one thread does |
| JniSignature.JniParams.SetFullyQualifiedClass | jni/jni_generator/jni_generator.py:124-126 | the class with its L, and its package: what is before the last slash |
| JniSignature.JniParams.ExtractImportsAndInnerClasses | jni/jni_generator/jni_generator.py:129-140 | each import with its L and slashes, each declared name exactly when the class does not end in it, and names stay an L and a name |
| JniSignature.SetIsClean | jni/jni_generator/jni_generator.py:124-126 | an internal name set as the class gives a class and a package with internal names |
| JniSignature.ExtractedIsClean | jni/jni_generator/jni_generator.py:129-140 | and so do the imports and inner classes that are extracted |
| JniSignature.JavaToJni | jni/jni_generator/jni_generator.py:143-210 | the loops print the resolved type, or raise its exception; brackets after a keyword give as many brackets and the code of that keyword in the specification, any other name an L and a semicolon |
| JniSignature.PrimitiveIsKeyword | jni/jni_generator/jni_generator.py:145-155 | the map from names to codes is the specification's table read backwards |
| JniSignature.NameParts | jni/jni_generator/jni_generator.py:166-171 | a type name is its bare name, perhaps a '<' and more, and the pairs of brackets |
| JniMeaning.KnownIsFound | jni/jni_generator/jni_generator.py:174-183 | a name with a slash is taken as it is; else the first of the six classes of java.lang, the class and its inner classes that is called so |
| JniMeaning.ImportIsFound | jni/jni_generator/jni_generator.py:188-197 | else the first import that ends in the name |
| JniMeaning.ImportChecked | jni/jni_generator/jni_generator.py:191-196 | which is refused exactly if its last component but one starts with a capital or is empty |
| JniMeaning.OuterIsFound | jni/jni_generator/jni_generator.py:201-210 | else an inner class of the first import that ends in what is before the last dot, or a class of the package |
| JniMeaning.PackageIsLast | jni/jni_generator/jni_generator.py:209-210 | and without a dot, a class of the package |
| JniSignature.FindClass | jni/jni_generator/jni_generator.py:174-210 | the four searches in their order |
| JniSignature.Signature | jni/jni_generator/jni_generator.py:213-222 | the printed text, wrapped and unwrapped, of the resolved types, or the first exception |
| JniSignature.SimpleNameSurvives | jni/jni_generator/jni_generator.py:174-210 | however a class is found, the class printed ends in the simple name given |
| JniSignature.DescriptorParses | jni/jni_generator/jni_generator.py:213-222 | a printed descriptor parses to exactly the types it was printed from |
| JniSignature.DescriptorIsUnique | jni/jni_generator/jni_generator.py:213-222 | two lists of types never share a descriptor |
| JniSignature.ParsesIffValid | jni/jni_generator/jni_generator.py:213-222 | it parses back if and only if every parameter is a field type, with an internal class name and at most 255 dimensions, and the return type is one or void |
| JniSignature.SoundIsInternal | jni/jni_generator/jni_generator.py:174-210 | the class found has an internal name if and only if: a name with a slash is one itself; a known or imported name always; an inner class of an imported one if it has no odd character; any other if it is an identifier and the package is named |
| JniSignature.ResolvesToFieldType | jni/jni_generator/jni_generator.py:143-210 | a name resolves to a type of the grammar if and only if it is a primitive other than void or a sound class name, with at most 255 pairs of brackets |
| JniSignature.UnimportedInnerClass | jni/jni_generator/jni_generator.py:196-210 | Outer.Inner without an import resolves, and is printed as no descriptor |
| JniSignature.VoidParameter | jni/jni_generator/jni_generator.py:213-222 | a void parameter is printed as no descriptor |
| JniSignature.SignatureParses | jni/jni_generator/jni_generator.py:213-222 | for any parameters and return type that resolve: one type per parameter with its array depth and base, a code being that of the keyword the bare name is; recovered by parsing exactly when every name denotes a type of the grammar, or void for the return type |
| JniSignature.QuotedMeans | jni/jni_generator/jni_generator.py:219-222 | a quoted item is the item between two double quotes |
| JniSignature.UnwrappedIsDescriptor | jni/jni_generator/jni_generator.py:219-222 | the unwrapped text is the descriptor |
| JniSignature.WrappedJoinsToUnwrapped | jni/jni_generator/jni_generator.py:219-222 | the quoted lines of the wrapped text, joined, are the unwrapped text |

## Left out

- JceInputStream.InputStream.ReadUnknown: when a last skip has carried the cursor beyond the buffer, the source copies bytes past its end; the model copies up to the end.
- JceReader.SkipElements: `size * 2` overflows Int32, which C++ leaves undefined; the model wraps. Exact skipping is stated for maps below 2^30 entries.
- JceReader.SkipSimpleList: a negative length becomes a large `size_t`; the cursor's sum is not wrapped around.
- JceDecoding.ReadsBack: reading a Float as a Double widens it, which changes no number; the model keeps the Float's bits as the value read.
- JceRecords.MapOrderDoesNotMatter: a map is its entries in order and equal keys are equal values; a comparator with another equivalence, and floating point keys that do not equal themselves, are not modelled.
- AutoPtr.LiveIffReachable: objects on which `setNoDelete` was ever called are excluded; they may outlive every handle by design.
- AutoPtrThreads.SharedCountsAreExact: a thread copies from handles of its own, and writes those and members of objects its handles hold that no other thread is writing; two threads on one handle are a data race in the source too. `swap`, `setNoDelete` and growing containers are operations of `AutoPtr` only. A handle under construction and a new object are seen by one thread, so their first writes are no steps.
- EventPump.Watcher.ThreadFunc: a buffer holds whole records, as inotify delivers them; `inotify_init`, `sprintf` of the watch path, sleeps and descriptors are outside.
- ObserverMessages.StringMsg.ReadFrom: `FilePath` and `ReqOnDel` are one class, since they differ in names only.
- JniSignature.SignatureParses: class names in the context are internal names, as package and import declarations give them. The limit of 255 on the parameters' total size is not part of the grammar here: it depends on whether the method is static. Capitals are ASCII.
- JceInputStream.InputStream.ReadDouble: a Float read as a Double is the same number in the source and the Float's bits here.
- ObserverProtocol.EchoMeansAlive: a failed `read` of -1 bytes, which the source passes to `setBuffer` as a length and so reads beyond its buffer, is not modelled.
- Targets of reads are newly constructed, except `ControlMsg::vbData`; what an exception leaves in a target that is then discarded is not stated.
- `read(char*, ...)`, `read(T*, ...)` and the raw-pointer writers: the vector overloads with a caller's length.
- `MapBufferReader`, `Jce_json.h`: used by nothing modelled.
- Copying a `BufferWriter`: `operator=` appends and then truncates, which is faithful only onto an empty target.
- Sockets, `fork`, `select`, curl, JNI strings: a received message, what one read of inotify returns and the outcome of a request are inputs.
- `startListening`: it leaves accepted sockets open on some paths.
- The server's pointer to an observer that has deleted itself, and the store to `mState` after the thread is created: only the watcher thread's own accesses are followed, and other threads act while the observer lives.
- The order in which a destructor destroys members is the list order; the results do not depend on which one that is.
- Data races: steps on shared flags and counts are atomic.
- `JniParams.Parse`, name mangling (not unique), the regular expressions and templates of the generator: text plumbing; the names the two patterns match are inputs.
- `tc_loki.h`, `tc_functor.h`, `tc_lock.h`, `scoped_java_ref`: easy members only.
