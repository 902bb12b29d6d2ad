/** The watcher thread's work on what inotify returns: framing, queue, classification, filter, callbacks. */
module EventPump {
  import opened Bytes
  import opened EventQueue

  const FAILED_RETRY_TIMES := 10

  // inotify.h

  const IN_ACCESS := 0x1
  const IN_MODIFY := 0x2
  const IN_ATTRIB := 0x4
  const IN_CLOSE_WRITE := 0x8
  const IN_CLOSE_NOWRITE := 0x10
  const IN_OPEN := 0x20
  const IN_MOVED_FROM := 0x40
  const IN_DELETE_SELF := 0x400

  /** An inotify_event; wd and cookie are carried as their 32-bit images. */
  datatype Record = Record(wd: nat, mask: nat, cookie: nat, name: seq<byte>)

  predicate IsWord(n: nat)
  {
    n < 0x1_0000_0000
  }

  predicate WellFormed(r: Record)
  {
    IsWord(r.wd) && IsWord(r.mask) && IsWord(r.cookie) && IsWord(|r.name|)
  }

  /** A record in memory: four words and the name. */
  function Layout(r: Record): seq<byte>
  {
    Little(r.wd, 4) + (Little(r.mask, 4) + (Little(r.cookie, 4) + (Little(|r.name|, 4) + r.name)))
  }

  /** The words lie at 0, 4, 8 and 12, lowest byte first, and the name behind them. */
  lemma LayoutIs(r: Record)
    ensures var s := Layout(r);
            && |s| == 16 + |r.name| && s[16..] == r.name
            && s[0] == r.wd % 256 && s[4] == r.mask % 256 && s[8] == r.cookie % 256 && s[12] == |r.name| % 256
            && s[5] == r.mask / 256 % 256
  {
    assert Little(r.mask, 4)[1] == Little(r.mask / 256, 3)[0];
  }

  /** A buffer read() fills: records one after the other. */
  function Frame(rs: seq<Record>): seq<byte>
  {
    if rs == [] then [] else Layout(rs[0]) + Frame(rs[1..])
  }

  function Word(buf: seq<byte>, i: nat): nat
    requires i + 4 <= |buf|
  {
    FromLittle(buf[i..i + 4])
  }

  lemma WordReads(buf: seq<byte>, i: nat, n: nat, rest: seq<byte>)
    requires IsWord(n) && i <= |buf| && buf[i..] == Little(n, 4) + rest
    ensures i + 4 <= |buf| && Word(buf, i) == n && buf[i + 4..] == rest
  {
    var s := Little(n, 4);
    assert |buf[i..]| == 4 + |rest|;
    assert buf[i..i + 4] == buf[i..][..4] == (s + rest)[..4] == s;
    assert buf[i + 4..] == buf[i..][4..] == (s + rest)[4..] == rest;
    assert Pow256(4) == 0x1_0000_0000;
    LittleRoundTrip(n, 4);
  }

  /** The fields of the record at an offset, and what comes after it. */
  lemma RecordReads(buf: seq<byte>, i: nat, r: Record, rest: seq<byte>)
    requires WellFormed(r) && i <= |buf| && buf[i..] == Layout(r) + rest
    ensures i + 16 + |r.name| <= |buf|
    ensures Word(buf, i) == r.wd && Word(buf, i + 4) == r.mask && Word(buf, i + 8) == r.cookie
    ensures Word(buf, i + 12) == |r.name| && buf[i + 16..i + 16 + |r.name|] == r.name
    ensures buf[i + 16 + |r.name|..] == rest
  {
    hide Little, Word;
    var a, b, c, d := Little(r.wd, 4), Little(r.mask, 4), Little(r.cookie, 4), Little(|r.name|, 4);
    assert Layout(r) + rest == a + (b + (c + (d + (r.name + rest))));
    WordReads(buf, i, r.wd, b + (c + (d + (r.name + rest))));
    WordReads(buf, i + 4, r.mask, c + (d + (r.name + rest)));
    WordReads(buf, i + 8, r.cookie, d + (r.name + rest));
    WordReads(buf, i + 12, |r.name|, r.name + rest);
    NameReads(buf, i + 16, r.name, rest);
  }

  lemma NameReads(buf: seq<byte>, i: nat, name: seq<byte>, rest: seq<byte>)
    requires i <= |buf| && buf[i..] == name + rest
    ensures i + |name| <= |buf| && buf[i..i + |name|] == name && buf[i + |name|..] == rest
  {
    assert |buf[i..]| == |name| + |rest|;
    assert buf[i..i + |name|] == buf[i..][..|name|] == (name + rest)[..|name|] == name;
    assert buf[i + |name|..] == buf[i..][|name|..] == (name + rest)[|name|..] == rest;
  }

  // FileObserver::Event

  datatype Event =
    | Nothing | Access | Modify | AttribChanged | CloseWrite | CloseNoWrite | Open | MovedFrom | Delete | Error

  /** Event's enum values are the powers of two, in this order. */
  function Bit(e: Event): nat
  {
    match e
    case Nothing => 0x1
    case Access => 0x2
    case Modify => 0x4
    case AttribChanged => 0x8
    case CloseWrite => 0x10
    case CloseNoWrite => 0x20
    case Open => 0x40
    case MovedFrom => 0x80
    case Delete => 0x100
    case Error => 0x200
  }

  /** notifyEvent & filter, on the two's complement of the filter. */
  predicate HasBit(filter: int, e: Event)
  {
    (filter / Bit(e)) % 2 == 1
  }

  /** The mask bits that name an event: all but IN_ISDIR and the flags above them. */
  function Named(mask: nat): nat
  {
    mask % 0x1000 + (mask / 0x2000 % 8) * 0x2000
  }

  /** What the thread finds when it looks outside: has the observer been stopped, is the file there. */
  datatype Look = Look(stopped: bool, exists_: bool)

  function Classify(mask: nat, fileExists: bool): Event
  {
    var m := Named(mask);
    if m == IN_ACCESS then Access
    else if m == IN_MODIFY then Modify
    else if m == IN_ATTRIB then AttribChanged
    else if m == IN_CLOSE_WRITE then CloseWrite
    else if m == IN_CLOSE_NOWRITE then if fileExists then CloseNoWrite else Delete
    else if m == IN_OPEN then Open
    else if m == IN_MOVED_FROM then MovedFrom
    else if m == IN_DELETE_SELF then Delete
    else Nothing
  }

  /** Without a filter everything passes, even events that name nothing. */
  predicate Passes(filter: int, e: Event)
  {
    filter == 0 || (e != Nothing && HasBit(filter, e))
  }

  /** What a mask means. IN_ISDIR and all else above the lower sixteen bits is ignored, and so is the bit
      0x1000; of the rest, one of eight values names an event, and any other value nothing. */
  lemma ClassifyMeans(mask: nat, k: nat, fileExists: bool)
    ensures Classify(mask + k * 0x1_0000, fileExists) == Classify(mask, fileExists)
    ensures mask / 0x1000 % 2 == 0 ==> Classify(mask + 0x1000, fileExists) == Classify(mask, fileExists)
    ensures Classify(0x1, fileExists) == Access && Classify(0x2, fileExists) == Modify
    ensures Classify(0x4, fileExists) == AttribChanged && Classify(0x8, fileExists) == CloseWrite
    ensures Classify(0x10, true) == CloseNoWrite && Classify(0x10, false) == Delete
    ensures Classify(0x20, fileExists) == Open && Classify(0x40, fileExists) == MovedFrom
    ensures Classify(0x400, fileExists) == Delete
    ensures mask < 0x1_0000 && mask / 0x1000 % 2 == 0 && mask !in {0x1, 0x2, 0x4, 0x8, 0x10, 0x20, 0x40, 0x400} ==>
              Classify(mask, fileExists) == Nothing
  {
    hide Named;
    NamedIgnores(mask, k);
    NamedAlone();
  }

  lemma NamedAlone()
    ensures forall m :: m in {0x1, 0x2, 0x4, 0x8, 0x10, 0x20, 0x40, 0x400} ==> Named(m) == m
  {
  }

  lemma HighBitsIgnored(mask: nat, k: nat)
    ensures Named(mask + k * 0x1_0000) == Named(mask)
  {
    var h := mask / 0x2000;
    QuotientIs(mask + k * 0x1_0000, 0x1000, mask / 0x1000 + 16 * k, mask % 0x1000);
    QuotientIs(mask + k * 0x1_0000, 0x2000, h + 8 * k, mask % 0x2000);
    QuotientIs(h + 8 * k, 8, h / 8 + k, h % 8);
  }

  /** With the bit 0x1000 clear, what is left is the rest of the mask. */
  lemma WithoutBit(mask: nat, h: nat, l: nat)
    requires mask == h * 0x2000 + l && l < 0x1000
    ensures Named(mask) == Named(mask + 0x1000) && (h < 8 ==> Named(mask) == mask)
  {
    QuotientIs(mask, 0x1000, 2 * h, l);
    QuotientIs(mask + 0x1000, 0x1000, 2 * h + 1, l);
    QuotientIs(mask, 0x2000, h, l);
    QuotientIs(mask + 0x1000, 0x2000, h, l + 0x1000);
    assert h < 8 ==> h % 8 == h;
  }

  lemma NamedIgnores(mask: nat, k: nat)
    ensures Named(mask + k * 0x1_0000) == Named(mask)
    ensures mask / 0x1000 % 2 == 0 ==> Named(mask + 0x1000) == Named(mask)
    ensures mask < 0x1_0000 && mask / 0x1000 % 2 == 0 ==> Named(mask) == mask
  {
    hide Named;
    HighBitsIgnored(mask, k);
    if mask / 0x1000 % 2 == 0 {
      WithoutBit(mask, mask / 0x1000 / 2, mask % 0x1000);
    }
  }

  lemma QuotientIs(n: int, b: nat, q: int, r: nat)
    requires n == q * b + r && r < b
    ensures n / b == q && n % b == r
  {
    var d, m := n / b, n % b;
    assert n == d * b + m;
    if d > q {
      Multiple(d - q, b);
    } else if d < q {
      Multiple(q - d, b);
    }
    assert (d - q) * b == d * b - q * b;
  }

  lemma Multiple(k: int, b: nat)
    requires k >= 1
    ensures k * b >= b
  {
  }

  /** An event is never taken for the failure of the thread. */
  lemma NeverClassifiedError(mask: nat, fileExists: bool)
    ensures Classify(mask, fileExists) != Error
  {
    hide Named;
  }

  /** What a filter lets pass: with none, everything; else what has its bit in it, Delete the ninth and Error
      the tenth, and never an event that names nothing. */
  lemma FilterMeans(filter: int, e: Event)
    ensures Passes(0, e) && (filter != 0 ==> !Passes(filter, Nothing))
    ensures filter != 0 && e != Nothing ==>
              var b := match e
                       case Access => 0x2 case Modify => 0x4 case AttribChanged => 0x8 case CloseWrite => 0x10
                       case CloseNoWrite => 0x20 case Open => 0x40 case MovedFrom => 0x80 case Delete => 0x100
                       case _ => 0x200;
              Passes(filter, e) <==> filter % (2 * b) >= b
  {
    UpperHalf(filter, Bit(e));
  }

  lemma UpperHalf(filter: int, b: nat)
    requires b > 0
    ensures filter / b % 2 == 1 <==> filter % (2 * b) >= b
  {
    var hi, lo := filter / (2 * b), filter % (2 * b);
    assert filter == hi * (2 * b) + lo && hi * (2 * b) == (2 * hi) * b;
    if lo < b {
      QuotientIs(filter, b, 2 * hi, lo);
    } else {
      assert (2 * hi + 1) * b == (2 * hi) * b + b;
      QuotientIs(filter, b, 2 * hi + 1, lo - b);
    }
  }

  /** What FileDeleteObserver asks for: Delete | Error. */
  const TERMINAL_FILTER := Bit(Delete) + Bit(Error)

  lemma OnlyTerminalPass(e: Event)
    ensures TERMINAL_FILTER == 0x300 && (Passes(TERMINAL_FILTER, e) <==> e == Delete || e == Error)
  {
    assert Bit(e) == 0x100 || Bit(e) == 0x200 ||
           (Bit(e) in {0x1, 0x2, 0x4, 0x8, 0x10, 0x20, 0x40, 0x80} && TERMINAL_FILTER == 0x300);
  }

  // What one batch delivers.

  /** The events handed to the delegate, and whether the thread goes on. */
  datatype Outcome = Outcome(delivered: seq<Event>, loop: bool)

  /** After one record: take the next, leave this batch (the observer is stopped), or end the thread. */
  datatype Verdict = Next | Leave | End

  function VerdictOn(r: Record, look: Look): Verdict
  {
    if look.stopped then Leave else if Classify(r.mask, look.exists_) == Delete then End else Next
  }

  function DeliveredFor(filter: int, r: Record, look: Look): seq<Event>
  {
    var e := Classify(r.mask, look.exists_);
    if !look.stopped && Passes(filter, e) then [e] else []
  }

  function ScanBatch(filter: int, rs: seq<Record>, looks: seq<Look>): Outcome
    requires |rs| <= |looks|
    decreases |rs|
  {
    if rs == [] then Outcome([], true)
    else
      var now := DeliveredFor(filter, rs[0], looks[0]);
      match VerdictOn(rs[0], looks[0])
      case Leave => Outcome(now, true)
      case End => Outcome(now, false)
      case Next =>
        var rest := ScanBatch(filter, rs[1..], looks[1..]);
        Outcome(now + rest.delivered, rest.loop)
  }

  /** One read() of the inotify descriptor, with what the thread will find while handling it. */
  datatype Read = Failed | Batch(rs: seq<Record>, looks: seq<Look>)

  predicate WellFormedRead(r: Read)
  {
    r.Batch? ==> |r.rs| <= |r.looks| && forall i :: 0 <= i < |r.rs| ==> WellFormed(r.rs[i])
  }

  class Watcher {
    const filter: int
    /** Events handed to the delegate so far. */
    var log: seq<Event>
    var heap: Allocator<Record>

    constructor (filter: int)
      ensures this.filter == filter && log == [] && fresh(heap) && heap.Valid() && heap.Live() == {}
    {
      this.filter, log := filter, [];
      heap := new Allocator<Record>();
    }

    /** A copy of the record in a new entry, at the end of the queue. */
    method EnqueueCopy(r: Record, q: Queue<Record>)
      requires heap.Valid() && q.Valid() && Elements(q.nodes) <= heap.issued
      modifies heap, q, if q.nodes == [] then {} else {q.nodes[|q.nodes| - 1]}
      ensures heap.Valid() && q.Valid() && q.Contents() == old(q.Contents()) + [r]
      ensures |q.nodes| == |old(q.nodes)| + 1 && q.nodes[..|q.nodes| - 1] == old(q.nodes)
      ensures var e := q.nodes[|q.nodes| - 1]; fresh(e) && heap.Live() == old(heap.Live()) + {e}
      ensures Elements(q.nodes) == Elements(old(q.nodes)) + {q.nodes[|q.nodes| - 1]}
      ensures Elements(q.nodes) <= heap.issued && heap.returned == old(heap.returned)
    {
      hide Events;
      var entry := heap.Malloc(r);
      assert forall n :: n in q.nodes ==> n in Elements(q.nodes);
      q.Enqueue(entry);
    }

    /** Cut the buffer into records, allocate an entry for each, queue them. */
    method Enframe(buf: seq<byte>, ghost rs: seq<Record>, q: Queue<Record>)
      requires buf == Frame(rs) && forall i :: 0 <= i < |rs| ==> WellFormed(rs[i])
      requires heap.Valid() && q.Valid() && q.nodes == []
      modifies heap, q
      ensures heap == old(heap) && heap.Valid() && q.Valid() && q.Contents() == rs
      ensures heap.Live() == old(heap.Live()) + Elements(q.nodes) && Elements(q.nodes) !! old(heap.Live())
      ensures old(heap.returned) == heap.returned
      ensures forall n :: n in q.nodes ==> fresh(n)
    {
      hide Word, Layout, Events, Frame, Queue.Valid, Queue.Linked, WellFormed, Elements;
      NoElements(q.nodes);
      var i := 0;
      ghost var k := 0;
      assert rs[0..] == rs && q.nodes[..0] == q.nodes;
      while i < |buf|
        invariant i <= |buf| && k <= |rs| && buf[i..] == Frame(rs[k..])
        invariant heap.Valid() && q.Valid() && q.Contents() == rs[..k]
        invariant heap.Live() == old(heap.Live()) + Elements(q.nodes) && Elements(q.nodes) !! old(heap.Live())
        invariant Elements(q.nodes) <= heap.issued && forall n :: n in q.nodes ==> fresh(n)
        invariant heap.returned == old(heap.returned)
        decreases |buf| - i
      {
        FrameSplits(rs, k);
        RecordReads(buf, i, rs[k], Frame(rs[k + 1..]));
        var len := Word(buf, i + 12);
        var r := Record(Word(buf, i), Word(buf, i + 4), Word(buf, i + 8), buf[i + 16..i + 16 + len]);
        assert q.nodes != [] ==> q.nodes[|q.nodes| - 1] in q.nodes;
        ghost var before := q.nodes;
        EnqueueCopy(r, q);
        assert q.nodes == before + [q.nodes[|before|]];
        assert rs[..k + 1] == rs[..k] + [rs[k]];
        i := i + 16 + len;
        k := k + 1;
      }
      FrameEnds(rs[k..]);
      assert rs[..k] == rs;
    }

    /** One dequeued record: classify, free the entry, check for a stop, filter, call back. */
    method HandleOne(entry: Entry<Record>, look: Look) returns (v: Verdict)
      requires heap.Valid() && entry in heap.Live()
      modifies this, heap
      ensures heap == old(heap) && heap.Valid()
      ensures heap.issued == old(heap.issued) && heap.returned == old(heap.returned) + {entry}
      ensures log == old(log) + DeliveredFor(filter, entry.event, look) && v == VerdictOn(entry.event, look)
    {
      hide Named, HasBit;
      var e := Classify(entry.event.mask, look.exists_);
      heap.Free(entry);
      if look.stopped {
        return Leave;
      }
      if filter != 0 {
        if e != Nothing && HasBit(filter, e) {
          log := log + [e];
        }
      } else {
        log := log + [e];
      }
      v := if e == Delete then End else Next;
    }

    /** The dequeue loop. Left-over entries are freed with the queue: none of the batch stays behind. */
    method Handle(q: Queue<Record>, looks: seq<Look>) returns (loop: bool)
      requires heap.Valid() && q.Valid() && Elements(q.nodes) <= heap.Live() && |q.nodes| <= |looks|
      modifies this, heap, q, Elements(q.nodes)
      ensures heap == old(heap) && heap.Valid() && heap.Live() == old(heap.Live()) - Elements(old(q.nodes)) && q.freed
      ensures var s := ScanBatch(filter, old(q.Contents()), looks);
              log == old(log) + s.delivered && loop == s.loop
    {
      hide Events, DeliveredFor, VerdictOn, ScanBatch, Queue.Valid, Queue.Linked, Elements;
      q.Distinct();
      ghost var all, rs, k := q.nodes, q.Contents(), 0;
      assert rs[0..] == rs && looks[0..] == looks;
      NoElements(all);
      loop := true;
      var i := 0;
      var v := Next;
      ghost var expected := ScanBatch(filter, rs, looks);
      while true
        invariant i == k <= |all| && q.Valid() && q.nodes == all[k..] && heap.Valid() && heap == old(heap)
        invariant heap.issued == old(heap.issued) && heap.returned == old(heap.returned) + Elements(all[..k])
        invariant q.Contents() == rs[k..] && loop
        invariant var t := ScanBatch(filter, rs[k..], looks[k..]);
                  log + t.delivered == old(log) + expected.delivered && t.loop == expected.loop
        decreases |all| - k
      {
        ScanStep(filter, rs[k..], looks[k..]);
        if k < |all| {
          ElementsNext(all, k);
        }
        var entry := q.Dequeue();
        if entry == null {
          break;
        }
        assert entry == all[k] && entry.event == rs[k];
        NotBefore(all, k);
        v := HandleOne(entry, looks[i]);
        assert rs[k..][1..] == rs[k + 1..] && looks[k..][1..] == looks[k + 1..];
        i, k := i + 1, k + 1;
        if v == Leave {
          break;
        }
        if v == End {
          loop := false;
          break;
        }
      }
      LiveRest(all, k);
      q.Destroy(heap);
    }

    /** One turn of the outer loop after a successful read. */
    method RunBatch(buf: seq<byte>, ghost rs: seq<Record>, looks: seq<Look>) returns (loop: bool)
      requires WellFormedRead(Batch(rs, looks)) && buf == Frame(rs) && heap.Valid() && heap.Live() == {}
      modifies this, heap
      ensures heap == old(heap) && heap.Valid() && heap.Live() == {}
      ensures var s := ScanBatch(filter, rs, looks);
              log == old(log) + s.delivered && loop == s.loop
    {
      var q := new Queue<Record>();
      Enframe(buf, rs, q);
      loop := Handle(q, looks);
    }

    /** The outer loop over the reads that return. With reads left over the thread has ended; with none
        left it is blocked in the next read. */
    method ThreadFunc(feed: seq<Read>)
      requires forall i :: 0 <= i < |feed| ==> WellFormedRead(feed[i])
      requires heap.Valid() && heap.Live() == {}
      modifies this, heap
      ensures heap == old(heap) && heap.Valid() && heap.Live() == {}
      ensures log == old(log) + ScanRun(filter, feed, 0)
    {
      hide ScanBatch, WellFormedRead, ScanRun, Frame;
      var loop, failedTimes, i := true, 0, 0;
      ghost var rest := ScanRun(filter, feed, 0);
      assert feed[0..] == feed;
      while loop && failedTimes < FAILED_RETRY_TIMES && i < |feed|
        invariant i <= |feed| && failedTimes <= FAILED_RETRY_TIMES && (!loop ==> failedTimes < FAILED_RETRY_TIMES)
        invariant heap == old(heap) && heap.Valid() && heap.Live() == {}
        invariant log + rest == old(log) + ScanRun(filter, feed, 0)
        invariant rest == if loop then ScanRun(filter, feed[i..], failedTimes) else []
        decreases |feed| - i
      {
        var r := feed[i];
        assert feed[i..][0] == r && feed[i..][1..] == feed[i + 1..];
        RunEdges(filter, feed[i..], failedTimes);
        match r {
          case Failed =>
            failedTimes := failedTimes + 1;
            rest := ScanRun(filter, feed[i + 1..], failedTimes);
          case Batch(rs, looks) =>
            RunStep(filter, feed[i..], failedTimes);
            loop := RunBatch(Frame(rs), rs, looks);
            rest := if loop then ScanRun(filter, feed[i + 1..], failedTimes) else [];
        }
        i := i + 1;
      }
      if loop {
        RunEdges(filter, feed[i..], failedTimes);
      }
      if failedTimes == FAILED_RETRY_TIMES {
        log := log + [Error];
      }
    }
  }

  /** What the thread delivers over its reads, from a number of failures on. */
  function ScanRun(filter: int, feed: seq<Read>, failed: nat): seq<Event>
    requires forall i :: 0 <= i < |feed| ==> WellFormedRead(feed[i])
    decreases |feed|
  {
    if failed == FAILED_RETRY_TIMES then [Error]
    else if feed == [] then []
    else match feed[0]
      case Failed => ScanRun(filter, feed[1..], failed + 1)
      case Batch(rs, looks) =>
        assert WellFormedRead(feed[0]);
        var s := ScanBatch(filter, rs, looks);
        s.delivered + if s.loop then ScanRun(filter, feed[1..], failed) else []
  }

  /** Giving up, being blocked, and one more failure. */
  lemma RunEdges(filter: int, feed: seq<Read>, failed: nat)
    requires forall i :: 0 <= i < |feed| ==> WellFormedRead(feed[i])
    ensures failed == FAILED_RETRY_TIMES ==> ScanRun(filter, feed, failed) == [Error]
    ensures failed != FAILED_RETRY_TIMES && feed == [] ==> ScanRun(filter, feed, failed) == []
    ensures failed != FAILED_RETRY_TIMES && feed != [] && feed[0].Failed? ==>
              ScanRun(filter, feed, failed) == ScanRun(filter, feed[1..], failed + 1)
  {
    hide ScanBatch;
  }

  lemma RunStep(filter: int, feed: seq<Read>, failed: nat)
    requires feed != [] && forall i :: 0 <= i < |feed| ==> WellFormedRead(feed[i])
    requires feed[0].Batch? && failed != FAILED_RETRY_TIMES
    ensures |feed[0].rs| <= |feed[0].looks|
    ensures var s := ScanBatch(filter, feed[0].rs, feed[0].looks);
            ScanRun(filter, feed, failed) == s.delivered + if s.loop then ScanRun(filter, feed[1..], failed) else []
  {
  }

  // The same without batches: one list of records.

  /** A record and what was found when it was handled. */
  datatype Item = Item(record: Record, look: Look)

  function EventOf(x: Item): Event
  {
    Classify(x.record.mask, x.look.exists_)
  }

  function Items(rs: seq<Record>, looks: seq<Look>): (xs: seq<Item>)
    requires |rs| <= |looks|
    ensures |xs| == |rs|
  {
    if rs == [] then [] else [Item(rs[0], looks[0])] + Items(rs[1..], looks[1..])
  }

  /** All records read before the thread gives up, in order. */
  function Flat(feed: seq<Read>, failed: nat): seq<Item>
    requires forall i :: 0 <= i < |feed| ==> WellFormedRead(feed[i])
    decreases |feed|
  {
    if feed == [] || failed == FAILED_RETRY_TIMES then []
    else match feed[0]
      case Failed => Flat(feed[1..], failed + 1)
      case Batch(rs, looks) => assert WellFormedRead(feed[0]); Items(rs, looks) + Flat(feed[1..], failed)
  }

  /** Did reading fail often enough to give up. */
  predicate GivesUp(feed: seq<Read>, failed: nat)
    decreases |feed|
  {
    failed == FAILED_RETRY_TIMES ||
    (feed != [] && GivesUp(feed[1..], if feed[0].Failed? then failed + 1 else failed))
  }

  /** The records up to the first Delete, which belongs to them, or up to the stop, which does not. */
  function CutOff(xs: seq<Item>): seq<Item>
  {
    if xs == [] || xs[0].look.stopped then []
    else if EventOf(xs[0]) == Delete then [xs[0]]
    else [xs[0]] + CutOff(xs[1..])
  }

  predicate HitsDelete(xs: seq<Item>)
  {
    xs != [] && !xs[0].look.stopped && (EventOf(xs[0]) == Delete || HitsDelete(xs[1..]))
  }

  predicate HitsStop(xs: seq<Item>)
  {
    xs != [] && (xs[0].look.stopped || (EventOf(xs[0]) != Delete && HitsStop(xs[1..])))
  }

  function PassOn(filter: int, xs: seq<Item>): seq<Event>
  {
    if xs == [] then []
    else (if Passes(filter, EventOf(xs[0])) then [EventOf(xs[0])] else []) + PassOn(filter, xs[1..])
  }

  /** An observer once stopped stays stopped. */
  predicate StaysStopped(xs: seq<Item>)
  {
    forall i, j :: 0 <= i < j < |xs| && xs[i].look.stopped ==> xs[j].look.stopped
  }

  lemma {:induction false} BatchIsCut(filter: int, rs: seq<Record>, looks: seq<Look>)
    requires |rs| <= |looks|
    ensures var xs, s := Items(rs, looks), ScanBatch(filter, rs, looks);
            s.delivered == PassOn(filter, CutOff(xs)) && s.loop == !HitsDelete(xs)
    decreases |rs|
  {
    hide Classify, Passes;
    if rs != [] {
      var xs := Items(rs, looks);
      assert xs[1..] == Items(rs[1..], looks[1..]);
      BatchIsCut(filter, rs[1..], looks[1..]);
      PassOnFirst(filter, xs[0], CutOff(xs[1..]));
      PassOnFirst(filter, xs[0], []);
    }
  }

  lemma PassOnFirst(filter: int, x: Item, xs: seq<Item>)
    ensures PassOn(filter, [x] + xs) == (if Passes(filter, EventOf(x)) then [EventOf(x)] else []) + PassOn(filter, xs)
    ensures PassOn(filter, [x]) == if Passes(filter, EventOf(x)) then [EventOf(x)] else []
  {
    assert ([x] + xs)[1..] == xs && [x][1..] == [];
  }

  lemma {:induction false} CutOffAppend(xs: seq<Item>, ys: seq<Item>)
    ensures HitsDelete(xs + ys) <==> HitsDelete(xs) || (!HitsStop(xs) && HitsDelete(ys))
    ensures HitsStop(xs + ys) <==> HitsStop(xs) || (!HitsDelete(xs) && HitsStop(ys))
    ensures CutOff(xs + ys) == CutOff(xs) + if HitsDelete(xs) || HitsStop(xs) then [] else CutOff(ys)
    ensures !HitsDelete(xs) && !HitsStop(xs) ==> CutOff(xs) == xs
    decreases |xs|
  {
    hide EventOf;
    if xs == [] {
      assert xs + ys == ys;
    } else {
      assert (xs + ys)[1..] == xs[1..] + ys && [xs[0]] + xs[1..] == xs;
      CutOffAppend(xs[1..], ys);
    }
  }

  lemma {:induction false} PassOnAppend(filter: int, xs: seq<Item>, ys: seq<Item>)
    ensures PassOn(filter, xs + ys) == PassOn(filter, xs) + PassOn(filter, ys)
    decreases |xs|
  {
    hide EventOf, Passes, PassOn;
    NoItems(filter);
    if xs == [] {
      assert xs + ys == ys;
    } else {
      assert xs == [xs[0]] + xs[1..] && xs + ys == [xs[0]] + (xs[1..] + ys);
      PassOnAppend(filter, xs[1..], ys);
      PassOnFirst(filter, xs[0], xs[1..]);
      PassOnFirst(filter, xs[0], xs[1..] + ys);
    }
  }

  lemma CutAppend(filter: int, xs: seq<Item>, ys: seq<Item>)
    ensures HitsDelete(xs + ys) <==> HitsDelete(xs) || (!HitsStop(xs) && HitsDelete(ys))
    ensures PassOn(filter, CutOff(xs + ys)) ==
            PassOn(filter, CutOff(xs)) + if HitsDelete(xs) || HitsStop(xs) then [] else PassOn(filter, CutOff(ys))
  {
    hide CutOff, HitsDelete, HitsStop, PassOn;
    CutOffAppend(xs, ys);
    PassOnAppend(filter, CutOff(xs), CutOff(ys));
    assert CutOff(xs) + [] == CutOff(xs) && PassOn(filter, CutOff(xs)) + [] == PassOn(filter, CutOff(xs));
  }

  lemma {:induction false} StopCarries(xs: seq<Item>, ys: seq<Item>)
    requires StaysStopped(xs + ys) && HitsStop(xs)
    ensures forall i :: 0 <= i < |ys| ==> ys[i].look.stopped
    decreases |xs|
  {
    hide EventOf;
    if xs[0].look.stopped {
      forall i | 0 <= i < |ys|
        ensures ys[i].look.stopped
      {
        assert (xs + ys)[0] == xs[0] && (xs + ys)[|xs| + i] == ys[i];
      }
    } else {
      assert (xs + ys)[1..] == xs[1..] + ys;
      StopCarries(xs[1..], ys);
    }
  }

  lemma StaysStoppedSuffix(xs: seq<Item>, ys: seq<Item>)
    requires StaysStopped(xs + ys)
    ensures StaysStopped(ys)
  {
    forall i, j | 0 <= i < j < |ys| && ys[i].look.stopped
      ensures ys[j].look.stopped
    {
      assert (xs + ys)[|xs| + i] == ys[i] && (xs + ys)[|xs| + j] == ys[j];
    }
  }

  /** The callbacks are a scan of the records: concatenate them, cut at the first Delete or at the stop,
      keep what passes the filter; and an Error at the end if the thread gave up before a Delete. Framing,
      queue and loops lose, reorder and duplicate nothing. */
  lemma {:induction false} PumpIsScan(filter: int, feed: seq<Read>, failed: nat)
    requires forall i :: 0 <= i < |feed| ==> WellFormedRead(feed[i])
    requires StaysStopped(Flat(feed, failed))
    ensures var xs := Flat(feed, failed);
            ScanRun(filter, feed, failed) ==
            PassOn(filter, CutOff(xs)) + if GivesUp(feed, failed) && !HitsDelete(xs) then [Error] else []
    decreases |feed|
  {
    hide ScanBatch, CutOff, HitsDelete, HitsStop, PassOn, Items, StaysStopped;
    NoItems(filter);
    if failed == FAILED_RETRY_TIMES || feed == [] {
    } else if feed[0].Failed? {
      PumpIsScan(filter, feed[1..], failed + 1);
    } else {
      var xs, ys := Items(feed[0].rs, feed[0].looks), Flat(feed[1..], failed);
      BatchIsCut(filter, feed[0].rs, feed[0].looks);
      CutAppend(filter, xs, ys);
      StaysStoppedSuffix(xs, ys);
      PumpIsScan(filter, feed[1..], failed);
      if HitsStop(xs) {
        StopCarries(xs, ys);
        NothingAfterStop(filter, ys);
      }
      RunStep(filter, feed, failed);
      NotBoth(xs);
    }
  }

  lemma NoItems(filter: int)
    ensures PassOn(filter, []) == [] && CutOff([]) == [] && !HitsDelete([]) && !HitsStop([])
  {
  }

  lemma NothingAfterStop(filter: int, ys: seq<Item>)
    requires forall i :: 0 <= i < |ys| ==> ys[i].look.stopped
    ensures PassOn(filter, CutOff(ys)) == [] && !HitsDelete(ys)
  {
  }

  lemma {:induction false} NotBoth(xs: seq<Item>)
    ensures !(HitsDelete(xs) && HitsStop(xs))
    decreases |xs|
  {
    if xs != [] {
      NotBoth(xs[1..]);
    }
  }

  lemma ScanStep(filter: int, rs: seq<Record>, looks: seq<Look>)
    requires |rs| <= |looks|
    ensures rs == [] ==> ScanBatch(filter, rs, looks) == Outcome([], true)
    ensures rs != [] ==>
              var s, now := ScanBatch(filter, rs, looks), DeliveredFor(filter, rs[0], looks[0]);
              match VerdictOn(rs[0], looks[0])
              case Leave => s == Outcome(now, true)
              case End => s == Outcome(now, false)
              case Next =>
                var rest := ScanBatch(filter, rs[1..], looks[1..]);
                s == Outcome(now + rest.delivered, rest.loop)
  {
  }

  lemma NoElements(all: seq<Entry<Record>>)
    ensures Elements(all[..0]) == {}
  {
  }

  lemma ElementsNext(all: seq<Entry<Record>>, k: nat)
    requires k < |all|
    ensures all[k] in Elements(all) && Elements(all[..k + 1]) == Elements(all[..k]) + {all[k]}
  {
    assert all[..k + 1] == all[..k] + [all[k]];
  }

  /** The entries taken so far and those left are all of them, without overlap. */
  lemma LiveRest(all: seq<Entry<Record>>, k: nat)
    requires k <= |all| && forall i, j :: 0 <= i < j < |all| ==> all[i] != all[j]
    ensures Elements(all) == Elements(all[..k]) + Elements(all[k..])
    ensures Elements(all[..k]) !! Elements(all[k..])
  {
    assert all == all[..k] + all[k..];
  }

  lemma FrameSplits(rs: seq<Record>, k: nat)
    requires k <= |rs| && Frame(rs[k..]) != []
    ensures k < |rs| && Frame(rs[k..]) == Layout(rs[k]) + Frame(rs[k + 1..])
  {
    hide Layout;
    assert k < |rs| ==> rs[k..][1..] == rs[k + 1..];
  }

  lemma FrameEnds(rs: seq<Record>)
    requires Frame(rs) == []
    ensures rs == []
  {
  }
}
