/** The client that sends a path and URLs, and the server that acts on them, over encoded messages. */
module ObserverProtocol {
  import opened Wrappers
  import opened Bytes
  import opened JceValue
  import opened JceIntegers
  import opened JceReader
  import opened JceSchema
  import opened JceWriting
  import opened JceWire
  import opened JceInputStream
  import opened JceOutputStream
  import opened ObserverMessages

  /** The server's receive buffer. */
  const BUFFER_SIZE := 4096

  /** A ControlMsg around a FilePath or a ReqOnDel. */
  function Message(ctrl: int, text: seq<byte>): seq<byte>
  {
    EncControl(ctrl, SEQ_ZERO, EncString(text))
  }

  // The server.

  /** What the server knows of its file observer. */
  datatype Watch = Watch(path: seq<byte>, url: seq<byte>)

  /** The server after one message: its observer, the bytes sent back, the exception that escaped. */
  datatype Served = Served(watch: Option<Watch>, reply: Option<seq<byte>>, err: Option<Error>)

  function HandleMsg(w: Option<Watch>, buf: seq<byte>): Served
  {
    if buf == [] then Served(w, None, None)
    else match DecControl(buf, [])
      case Bad(e) => Served(w, None, Some(e))
      case Got(fs, _) =>
        var ctrl, data := fs[0].val.n, fs[2].val.b;
        if ctrl == HELLO then Served(w, Some(buf), None)
        else if ctrl == FILE_PATH then (
          match DecString(data)
          case Bad(e) => Served(w, None, Some(e))
          case Got(gs, _) => Served(Some(Watch(gs[0].val.s, [])), None, None)
        )
        else if ctrl == REQ_ON_DEL && w.Some? then (
          match DecString(data)
          case Bad(e) => Served(w, None, Some(e))
          case Got(gs, _) => Served(Some(w.value.(url := gs[0].val.s)), None, None)
        )
        else Served(w, None, None)
  }

  /** The server over a run of messages; an exception ends it. */
  function HandleAll(w: Option<Watch>, msgs: seq<seq<byte>>): Served
    decreases |msgs|
  {
    if msgs == [] then Served(w, None, None)
    else
      var s := HandleMsg(w, msgs[0]);
      if s.err.Some? then s else HandleAll(s.watch, msgs[1..])
  }

  class FileDeleteObserver {
    const path: seq<byte>
    var url: seq<byte>
    var cancelled: bool
    var watching: bool

    constructor (path: seq<byte>)
      ensures this.path == path && url == [] && !cancelled && !watching
    {
      this.path, url, cancelled, watching := path, [], false, false;
    }

    method StartWatching()
      modifies `watching
      ensures watching
    {
      watching := true;
    }

    /** Sets the flag, then stops the watcher. */
    method StopWatching()
      modifies `cancelled, `watching
      ensures cancelled && !watching
    {
      cancelled := true;
      watching := false;
    }

    method SetHttpRequestOnDelete(u: seq<byte>)
      modifies `url
      ensures url == u
    {
      url := u;
    }
  }

  class BackendServer {
    var observer: FileDeleteObserver?

    ghost function View(): Option<Watch>
      reads this, observer
    {
      if observer == null then None else Some(Watch(observer.path, observer.url))
    }

    constructor ()
      ensures View() == None
    {
      observer := null;
    }

    /** A new path replaces the observer: the old one is stopped, the new one watches. */
    method Handle(commSock: int, buf: seq<byte>) returns (reply: Option<seq<byte>>, err: Option<Error>)
      modifies this, observer
      ensures commSock < 0 ==> observer == old(observer) && View() == old(View()) && reply == None && err == None
      ensures commSock >= 0 ==> Served(View(), reply, err) == HandleMsg(old(View()), buf)
      ensures observer != old(observer) ==>
                && fresh(observer) && observer != null && observer.watching && !observer.cancelled
                && (old(observer) != null ==> old(observer).cancelled && !old(observer).watching)
      ensures observer == old(observer) != null ==>
                observer.cancelled == old(observer.cancelled) && observer.watching == old(observer.watching)
    {
      hide ReadSlots;
      reply, err := None, None;
      if commSock < 0 || buf == [] {
        return;
      }
      var msg := new ControlMsg();
      var s := new InputStream();
      s.SetBuffer(buf);
      err := msg.ReadFrom(s);
      if err.Some? {
        return;
      }
      match msg.ctrlType {
        case 0 =>
          reply := Some(buf);
        case 1 =>
          var filePath := new StringMsg();
          var t := new InputStream();
          t.SetBuffer(msg.data);
          err := filePath.ReadFrom(t);
          if err.Some? {
            return;
          }
          if observer != null {
            observer.StopWatching();
          }
          observer := new FileDeleteObserver(filePath.text);
          observer.StartWatching();
        case 2 =>
          if observer != null {
            var req := new StringMsg();
            var t := new InputStream();
            t.SetBuffer(msg.data);
            err := req.ReadFrom(t);
            if err.Some? {
              return;
            }
            observer.SetHttpRequestOnDelete(req.text);
          }
        case _ =>
      }
    }
  }

  // The client.

  /** ProtocolUtil::writeTo for FilePath and ReqOnDel. The exception of a string too long to encode
      passes through it and its callers. */
  method EncodeText(text: seq<byte>) returns (bytes: seq<byte>, err: Option<WriteError>)
    requires |text| < 0x1_0000_0000
    ensures |text| <= MAX_STRING_LENGTH ==> err == None && bytes == EncString(text)
    ensures |text| > MAX_STRING_LENGTH ==> err == Some(StringTooLong)
  {
    hide EncString, EmitFields, Deliver;
    var body := new StringMsg();
    body.text := text;
    var os := new OutputStream();
    err := body.WriteTo(os);
    os.WroteMeans([], None, EmitFields(StringFields(text)), err);
    StringDelivered(text);
    bytes := os.GetBytes();
  }

  method EncodeControl(ctrl: int, data: seq<byte>) returns (bytes: seq<byte>, err: Option<WriteError>)
    requires ctrl in {FILE_PATH, REQ_ON_DEL} && |data| < 0x8000_0000
    ensures err == None && bytes == EncControl(ctrl, SEQ_ZERO, data)
  {
    hide EncControl, EmitFields, Deliver;
    Powers();
    var msg := new ControlMsg();
    msg.ctrlType, msg.seqNo, msg.data := ctrl, SEQ_ZERO, data;
    var os := new OutputStream();
    err := msg.WriteTo(os);
    os.WroteMeans([], None, EmitFields(ControlFields(ctrl, SEQ_ZERO, data)), err);
    ControlDelivered(ctrl, data);
    bytes := os.GetBytes();
  }

  /** NativeFileObserver's two senders, which differ in the control type only. */
  method BuildMessage(ctrl: int, text: seq<byte>) returns (bytes: seq<byte>, err: Option<WriteError>)
    requires ctrl in {FILE_PATH, REQ_ON_DEL} && |text| < 0x1_0000_0000
    ensures |text| <= MAX_STRING_LENGTH ==> err == None && bytes == Message(ctrl, text)
    ensures |text| > MAX_STRING_LENGTH ==> err == Some(StringTooLong)
  {
    hide EncString, EncControl;
    bytes, err := EncodeText(text);
    if err.Some? {
      return;
    }
    StringLength(text);
    bytes, err := EncodeControl(ctrl, bytes);
  }

  lemma StringDelivered(text: seq<byte>)
    ensures Deliver(EmitFields(StringFields(text)), None) ==
            if |text| <= MAX_STRING_LENGTH then Delivery(EncString(text), None) else Delivery([], Some(StringTooLong))
  {
    hide EmitString, EncFields;
    var fs := StringFields(text);
    if |text| <= MAX_STRING_LENGTH {
      assert fs[1..] == [];
      assert Fits(StringV(text));
      assert FitsField(fs[0]);
      FieldsCons(fs[0], fs);
      FieldsYield(fs);
      GrowingKeepsAll(EmitFields(fs));
    } else {
      StringTrace(text);
      TooLongTrace(text);
    }
  }

  lemma TooLongTrace(text: seq<byte>)
    requires |text| > MAX_STRING_LENGTH
    ensures Deliver(EmitString(text, 0), None) == Delivery([], Some(StringTooLong))
  {
  }

  lemma ControlDelivered(ctrl: int, data: seq<byte>)
    requires ctrl in {FILE_PATH, REQ_ON_DEL} && |data| < 0x8000_0000
    ensures Deliver(EmitFields(ControlFields(ctrl, SEQ_ZERO, data)), None) ==
            Delivery(EncControl(ctrl, SEQ_ZERO, data), None)
  {
    hide EmitFields, EncFields, FitFields;
    Powers();
    var fs := ControlFields(ctrl, SEQ_ZERO, data);
    ControlIsWellFormed(ctrl, SEQ_ZERO, data);
    FieldsYield(fs);
    GrowingKeepsAll(EmitFields(fs));
  }

  /** UninstallMonitor: the observer is started on first use, then every URL is sent on. */
  class UninstallMonitor {
    const path: seq<byte>
    var started: bool
    var sent: seq<seq<byte>>

    constructor (path: seq<byte>)
      ensures this.path == path && !started && sent == []
    {
      this.path, started, sent := path, false, [];
    }

    method Start() returns (err: Option<WriteError>)
      requires |path| < 0x1_0000_0000
      modifies this
      ensures err.Some? <==> !old(started) && |path| > MAX_STRING_LENGTH
      ensures err.Some? ==> started == old(started) && sent == old(sent)
      ensures err.None? ==>
                started && sent == if old(started) then old(sent) else old(sent) + [Message(FILE_PATH, path)]
    {
      err := None;
      if started {
        return;
      }
      var bytes;
      bytes, err := BuildMessage(FILE_PATH, path);
      if err.Some? {
        return;
      }
      sent := sent + [bytes];
      started := true;
    }

    method SetHttpRequestOnUninstall(url: Option<seq<byte>>) returns (err: Option<WriteError>)
      requires |path| < 0x1_0000_0000 && (url.Some? ==> |url.value| < 0x1_0000_0000)
      modifies this
      ensures err.Some? <==>
              (!old(started) && |path| > MAX_STRING_LENGTH) || (url.Some? && |url.value| > MAX_STRING_LENGTH)
      ensures err.None? ==> Client(started, sent) == ClientCall(Client(old(started), old(sent)), path, url)
    {
      err := None;
      if !started {
        err := Start();
        if err.Some? {
          return;
        }
      }
      if url.Some? {
        var bytes;
        bytes, err := BuildMessage(REQ_ON_DEL, url.value);
        if err.Some? {
          return;
        }
        sent := sent + [bytes];
      }
    }
  }

  datatype Client = Client(started: bool, sent: seq<seq<byte>>)

  function ClientCall(c: Client, path: seq<byte>, url: Option<seq<byte>>): Client
  {
    var first := if c.started then c.sent else c.sent + [Message(FILE_PATH, path)];
    Client(true, if url.Some? then first + [Message(REQ_ON_DEL, url.value)] else first)
  }

  function ClientRun(c: Client, path: seq<byte>, urls: seq<Option<seq<byte>>>): Client
    decreases |urls|
  {
    if urls == [] then c else ClientRun(ClientCall(c, path, urls[0]), path, urls[1..])
  }

  // The bytes of the messages.

  /** The hello the client sends. */
  function Hello(): seq<byte>
  {
    EncControl(HELLO, SEQ_ZERO, [])
  }

  lemma NoFields()
    ensures EncFields([]) == []
  {
  }

  lemma ThreeFields(ctrl: int, data: seq<byte>)
    ensures EncControl(ctrl, SEQ_ZERO, data) ==
            Enc(IntV(ctrl), 0) + (Enc(StringV(SEQ_ZERO), 1) + Enc(BytesV(data), 2))
  {
    hide Enc;
    var fs := ControlFields(ctrl, SEQ_ZERO, data);
    var f0, f1, f2 := fs[0], fs[1], fs[2];
    assert fs == [f0] + [f1, f2] && [f1, f2] == [f1] + [f2] && [f2] == [f2] + [];
    EncFieldsCons(f0, [f1, f2]);
    EncFieldsCons(f1, [f2]);
    EncFieldsCons(f2, []);
    NoFields();
    assert Enc(BytesV(data), 2) + [] == Enc(BytesV(data), 2);
  }

  /** A message around a vector of bytes: its type as a Char of tag 0, or a zero; the string "0" of tag 1; a
      simple list of tag 2. */
  lemma ControlBytes(ctrl: int, data: seq<byte>)
    requires 0 <= ctrl < 0x80 && |data| < 0x8000_0000
    ensures EncControl(ctrl, SEQ_ZERO, data) ==
            (if ctrl == 0 then [0x0C] else [0x00, ctrl]) + [0x16, 0x01, 0x30, 0x2D, 0x00] + WrittenInt(|data|, 0) + data
  {
    hide EncControl, Enc, WrittenInt;
    ThreeFields(ctrl, data);
    SmallWritten(ctrl);
    StringWritten(SEQ_ZERO, 1);
    BytesWritten(data, 2);
    assert Announced(6, 1) == [0x16] && Announced(13, 2) == [0x2D];
    var a, c := Enc(IntV(ctrl), 0), WrittenInt(|data|, 0);
    assert [0x16] + ([0x01] + [0x30]) + ([0x2D] + ([0x00] + c + data)) == [0x16, 0x01, 0x30, 0x2D, 0x00] + c + data;
  }

  lemma OneField(text: seq<byte>)
    ensures EncString(text) == Enc(StringV(text), 0)
  {
    hide Enc, EncFields;
    var f := Field(0, StringV(text));
    assert StringFields(text) == [f] + [];
    EncFieldsCons(f, []);
    NoFields();
  }

  /** A text in its struct: one string of tag 0. */
  lemma TextBytes(text: seq<byte>)
    requires |text| <= 0x640_0000
    ensures EncString(text) == (if |text| < 256 then [0x06] + [|text|] else [0x07] + Digits(|text|, 4)) + text
  {
    hide EncString, Enc, Digits, Announced;
    OneField(text);
    StringWritten(text, 0);
    StringHeads();
  }

  lemma StringHeads()
    ensures Announced(6, 0) == [0x06] && Announced(7, 0) == [0x07]
  {
  }

  lemma ShortMessage(ctrl: byte, text: seq<byte>)
    requires |text| <= 125
    ensures [0x00, ctrl] + [0x16, 0x01, 0x30, 0x2D, 0x00] + [0x00, |text| + 2] + ([0x06] + [|text|] + text) ==
            [0x00, ctrl, 0x16, 0x01, 0x30, 0x2D, 0x00, 0x00, |text| + 2, 0x06, |text|] + text
  {
  }

  /** The bytes of a path message, of a URL message and of the hello. */
  lemma MessageBytes(text: seq<byte>)
    requires |text| <= 0x640_0000
    ensures var data := (if |text| < 256 then [0x06] + [|text|] else [0x07] + Digits(|text|, 4)) + text;
            && FitsSigned(|data|, 8)
            && Message(FILE_PATH, text) == [0x00, 1, 0x16, 0x01, 0x30, 0x2D, 0x00] + WrittenInt(|data|, 0) + data
            && Message(REQ_ON_DEL, text) == [0x00, 2, 0x16, 0x01, 0x30, 0x2D, 0x00] + WrittenInt(|data|, 0) + data
    ensures |text| <= 125 ==>
              && Message(FILE_PATH, text) ==
                 [0x00, 1, 0x16, 0x01, 0x30, 0x2D, 0x00, 0x00, |text| + 2, 0x06, |text|] + text
              && Message(REQ_ON_DEL, text) ==
                 [0x00, 2, 0x16, 0x01, 0x30, 0x2D, 0x00, 0x00, |text| + 2, 0x06, |text|] + text
    ensures Hello() == [0x0C, 0x16, 0x01, 0x30, 0x2D, 0x00, 0x0C]
  {
    hide EncControl, EncString, Digits, WrittenInt;
    Powers();
    TextBytes(text);
    var data := EncString(text);
    ControlBytes(FILE_PATH, data);
    ControlBytes(REQ_ON_DEL, data);
    ControlBytes(HELLO, []);
    SmallWritten(0);
    if |text| <= 125 {
      SmallWritten(|data|);
      ShortMessage(1, text);
      ShortMessage(2, text);
    }
  }

  // Any run of client calls, delivered in order and complete.

  /** One request per URL that is not null. */
  function Requests(urls: seq<Option<seq<byte>>>): seq<seq<byte>>
    decreases |urls|
  {
    if urls == [] then []
    else (if urls[0].Some? then [Message(REQ_ON_DEL, urls[0].value)] else []) + Requests(urls[1..])
  }

  function LastUrl(urls: seq<Option<seq<byte>>>, before: seq<byte>): seq<byte>
    decreases |urls|
  {
    if urls == [] then before else LastUrl(urls[1..], if urls[0].Some? then urls[0].value else before)
  }

  predicate Short(urls: seq<Option<seq<byte>>>, limit: nat)
  {
    forall i :: 0 <= i < |urls| && urls[i].Some? ==> |urls[i].value| <= limit
  }

  lemma {:induction false} RunSendsRequests(c: Client, path: seq<byte>, urls: seq<Option<seq<byte>>>)
    requires c.started
    ensures ClientRun(c, path, urls) == Client(true, c.sent + Requests(urls))
    decreases |urls|
  {
    hide Message;
    if urls == [] {
      assert c.sent + [] == c.sent;
    } else {
      var rest := Requests(urls[1..]);
      if urls[0].Some? {
        var m := Message(REQ_ON_DEL, urls[0].value);
        RunSendsRequests(Client(true, c.sent + [m]), path, urls[1..]);
        assert c.sent + [m] + rest == c.sent + ([m] + rest);
      } else {
        RunSendsRequests(c, path, urls[1..]);
        assert [] + rest == rest;
      }
    }
  }

  lemma FirstCall(c: Client, path: seq<byte>, urls: seq<Option<seq<byte>>>)
    requires urls != []
    ensures ClientRun(c, path, urls) == ClientRun(ClientCall(c, path, urls[0]), path, urls[1..])
    ensures Requests(urls) ==
            (if urls[0].Some? then [Message(REQ_ON_DEL, urls[0].value)] else []) + Requests(urls[1..])
  {
    hide Message;
  }

  /** A client sends its path once, first, and then one request per URL. */
  lemma RunSendsPathFirst(path: seq<byte>, urls: seq<Option<seq<byte>>>)
    requires urls != []
    ensures ClientRun(Client(false, []), path, urls).sent == [Message(FILE_PATH, path)] + Requests(urls)
  {
    hide Message, Requests, ClientRun;
    var c, m := Client(false, []), Message(FILE_PATH, path);
    var d := ClientCall(c, path, urls[0]);
    var first := if urls[0].Some? then [Message(REQ_ON_DEL, urls[0].value)] else [];
    RunSendsRequests(d, path, urls[1..]);
    FirstCall(c, path, urls);
    assert d.sent == [m] + first && [m] + first + Requests(urls[1..]) == [m] + (first + Requests(urls[1..]));
  }

  lemma PathHandled(w: Option<Watch>, path: seq<byte>)
    requires |path| <= MAX_STRING_LENGTH
    ensures HandleMsg(w, Message(FILE_PATH, path)) == Served(Some(Watch(path, [])), None, None)
  {
    hide DecControl, DecString, EncControl, EncString;
    MessageDecodes(FILE_PATH, path);
  }

  lemma UrlHandled(w: Watch, url: seq<byte>)
    requires |url| <= MAX_STRING_LENGTH
    ensures HandleMsg(Some(w), Message(REQ_ON_DEL, url)) == Served(Some(w.(url := url)), None, None)
  {
    hide DecControl, DecString, EncControl, EncString;
    MessageDecodes(REQ_ON_DEL, url);
  }

  /** A URL that arrives before any path is lost. */
  lemma UrlBeforePathIsLost(url: seq<byte>)
    requires |url| <= MAX_STRING_LENGTH
    ensures HandleMsg(None, Message(REQ_ON_DEL, url)) == Served(None, None, None)
  {
    hide DecControl, DecString, EncControl, EncString;
    MessageDecodes(REQ_ON_DEL, url);
  }

  /** On any bytes whatever: an exception changes nothing; a reply is the bytes received, and goes with no
      change; and only a new path gives up a path or a URL. */
  lemma HandlingIsAtomic(w: Option<Watch>, buf: seq<byte>)
    ensures var s := HandleMsg(w, buf);
            && (s.err.Some? || s.reply.Some? ==> s.watch == w)
            && (s.reply.Some? ==> s.reply.value == buf && s.err.None?)
            && (w.Some? ==> s.watch.Some?)
            && (w.Some? && s.watch.Some? && s.watch.value.path != w.value.path ==> s.watch.value.url == [])
  {
    hide DecControl, DecString;
  }

  /** A control type that is none of the three, or a URL without an observer, does nothing at all. */
  lemma OtherTypesDoNothing(w: Option<Watch>, buf: seq<byte>)
    requires buf != [] && DecControl(buf, []).Got?
    ensures var ctrl := DecControl(buf, []).v[0].val.n;
            ctrl !in {0, 1, 2} || (ctrl == 2 && w.None?) ==> HandleMsg(w, buf) == Served(w, None, None)
  {
    hide DecControl;
  }

  lemma MessageDecodes(ctrl: int, text: seq<byte>)
    requires ctrl in {FILE_PATH, REQ_ON_DEL} && |text| <= MAX_STRING_LENGTH
    ensures var g := DecControl(Message(ctrl, text), []);
            && Message(ctrl, text) != [] && g.Got?
            && g.v == ControlFields(ctrl, SEQ_ZERO, EncString(text))
    ensures var s := DecString(EncString(text));
            s.Got? && s.v == StringFields(text)
  {
    hide DecControl, DecString, EncControl, EncString;
    Powers();
    StringLength(text);
    ControlRoundTrip(ctrl, SEQ_ZERO, EncString(text));
    StringRoundTrip(text);
    MessageLength(ctrl, text);
  }

  lemma {:induction false} RequestsHandled(w: Watch, urls: seq<Option<seq<byte>>>)
    requires Short(urls, MAX_STRING_LENGTH)
    ensures HandleAll(Some(w), Requests(urls)) == Served(Some(w.(url := LastUrl(urls, w.url))), None, None)
    decreases |urls|
  {
    hide HandleMsg, Message;
    if urls != [] {
      var rest := Requests(urls[1..]);
      if urls[0].Some? {
        var m := Message(REQ_ON_DEL, urls[0].value);
        UrlHandled(w, urls[0].value);
        assert Requests(urls) == [m] + rest && ([m] + rest)[1..] == rest;
        RequestsHandled(w.(url := urls[0].value), urls[1..]);
      } else {
        assert Requests(urls) == rest;
        RequestsHandled(w, urls[1..]);
      }
    }
  }

  /** From any server state, a client's messages leave the server watching the client's path, with the
      last URL sent since (none if there was none); no exception, no reply. */
  lemma EndToEnd(w: Option<Watch>, path: seq<byte>, urls: seq<Option<seq<byte>>>)
    requires urls != [] && |path| <= MAX_STRING_LENGTH && Short(urls, MAX_STRING_LENGTH)
    ensures var sent := ClientRun(Client(false, []), path, urls).sent;
            HandleAll(w, sent) == Served(Some(Watch(path, LastUrl(urls, []))), None, None)
  {
    hide HandleMsg, Message;
    RunSendsPathFirst(path, urls);
    var m, rest := Message(FILE_PATH, path), Requests(urls);
    PathHandled(w, path);
    assert ([m] + rest)[0] == m && ([m] + rest)[1..] == rest;
    RequestsHandled(Watch(path, []), urls);
  }

  // The receive buffer.

  lemma IntLength(n: nat)
    ensures |EncInt(n, 0)| == 1 + IntWidth(n)
  {
  }

  lemma EncFieldsCons(f: Field, fs: seq<Field>)
    ensures EncFields([f] + fs) == EncField(f) + EncFields(fs)
    ensures EncFields([f]) == EncField(f)
  {
    hide EncField;
    assert ([f] + fs)[1..] == fs && [f][1..] == [];
  }

  lemma TextLength(text: seq<byte>, tag: byte)
    requires tag < 15
    ensures |Enc(StringV(text), tag)| == |text| + (if |text| > 255 then 5 else 2)
  {
  }

  lemma StringLength(text: seq<byte>)
    requires |text| <= MAX_STRING_LENGTH
    ensures |EncString(text)| == |text| + (if |text| > 255 then 5 else 2)
  {
    hide Enc, EncFields;
    EncFieldsCons(Field(0, StringV(text)), []);
    TextLength(text, 0);
  }

  lemma MessageLength(ctrl: int, text: seq<byte>)
    requires ctrl in {FILE_PATH, REQ_ON_DEL} && |text| <= MAX_STRING_LENGTH
    ensures var n := |EncString(text)|; |Message(ctrl, text)| == 8 + IntWidth(n) + n
  {
    hide Enc, EncFields, EncString;
    var data := EncString(text);
    var fs := ControlFields(ctrl, SEQ_ZERO, data);
    var f0, f1, f2 := fs[0], fs[1], fs[2];
    PartLengths(ctrl, data);
    TextLength(SEQ_ZERO, 1);
    EncFieldsCons(f0, [f1, f2]);
    EncFieldsCons(f1, [f2]);
    EncFieldsCons(f2, []);
    assert fs == [f0] + [f1, f2] && [f1, f2] == [f1] + [f2];
  }

  lemma BoundaryLengths(ctrl: int, data: seq<byte>)
    requires ctrl in {FILE_PATH, REQ_ON_DEL}
    ensures var fs := ControlFields(ctrl, SEQ_ZERO, data);
            |EncFields(fs[..0])| == 0 && |EncFields(fs[..1])| == 2 && |EncFields(fs[..2])| == 5
  {
    hide Enc, EncFields;
    var fs := ControlFields(ctrl, SEQ_ZERO, data);
    var f0, f1 := fs[0], fs[1];
    PartLengths(ctrl, data);
    TextLength(SEQ_ZERO, 1);
    EncFieldsCons(f0, [f1]);
    EncFieldsCons(f1, []);
    NoFields();
    assert fs[..0] == [] && fs[..1] == [f0] && fs[..2] == [f0] + [f1];
  }

  lemma PartLengths(ctrl: int, data: seq<byte>)
    requires ctrl in {FILE_PATH, REQ_ON_DEL}
    ensures |Enc(IntV(ctrl), 0)| == 2
    ensures |Enc(BytesV(data), 2)| == 3 + IntWidth(|data|) + |data|
  {
    IntLength(|data|);
    assert IntWidth(ctrl) == 1;
  }

  /** A message fits the receive buffer exactly when its path or URL has at most 4081 bytes. */
  lemma FitsReceiveBuffer(ctrl: int, text: seq<byte>)
    requires ctrl in {FILE_PATH, REQ_ON_DEL} && |text| <= MAX_STRING_LENGTH
    ensures |Message(ctrl, text)| <= BUFFER_SIZE <==> |text| <= 4081
  {
    hide Message, EncString;
    MessageLength(ctrl, text);
    StringLength(text);
  }

  /** What one recv returns of a message. */
  function Received(m: seq<byte>): seq<byte>
  {
    if |m| > BUFFER_SIZE then m[..BUFFER_SIZE] else m
  }

  /** A message that does not fit never takes effect: decoding what was received throws. */
  lemma TooLongThrows(w: Option<Watch>, ctrl: int, text: seq<byte>)
    requires ctrl in {FILE_PATH, REQ_ON_DEL} && 4081 < |text| <= MAX_STRING_LENGTH
    ensures HandleMsg(w, Received(Message(ctrl, text))).err.Some?
    ensures HandleMsg(w, Received(Message(ctrl, text))).watch == w
  {
    hide EncString, EncFields, DecControl;
    Powers();
    var data := EncString(text);
    FitsReceiveBuffer(ctrl, text);
    StringLength(text);
    BoundaryLengths(ctrl, data);
    ControlPrefix(ctrl, SEQ_ZERO, data, BUFFER_SIZE);
    var fs := ControlFields(ctrl, SEQ_ZERO, data);
    assert fs[..3] == fs;
    forall n | 0 <= n <= 3
      ensures BUFFER_SIZE != |EncFields(fs[..n])|
    {
      assert n == 0 || n == 1 || n == 2 || n == 3;
    }
  }

  lemma {:induction false} ShortRequestsFit(urls: seq<Option<seq<byte>>>)
    requires Short(urls, 4081)
    ensures forall i :: 0 <= i < |Requests(urls)| ==> Received(Requests(urls)[i]) == Requests(urls)[i]
    decreases |urls|
  {
    hide Message;
    if urls != [] {
      ShortRequestsFit(urls[1..]);
      if urls[0].Some? {
        FitsReceiveBuffer(REQ_ON_DEL, urls[0].value);
      }
    }
  }

  /** With a path and URLs of at most 4081 bytes every message arrives whole. */
  lemma ShortRunFits(path: seq<byte>, urls: seq<Option<seq<byte>>>)
    requires urls != [] && |path| <= 4081 && Short(urls, 4081)
    ensures var sent := ClientRun(Client(false, []), path, urls).sent;
            forall i :: 0 <= i < |sent| ==> Received(sent[i]) == sent[i]
  {
    hide Message, Received;
    RunSendsPathFirst(path, urls);
    ShortRequestsFit(urls);
    FitsReceiveBuffer(FILE_PATH, path);
    ReceivedWhole(Message(FILE_PATH, path));
  }

  lemma ReceivedWhole(m: seq<byte>)
    requires |m| <= BUFFER_SIZE
    ensures Received(m) == m
  {
  }

  // IsServerAlive.

  /** The client's judgement of a reply: None when decoding it throws. */
  function IsAlive(reply: seq<byte>): Option<bool>
  {
    match DecControl(reply, [])
    case Bad(_) => None
    case Got(fs, _) => Some(reply != [] && fs[0].val.n == HELLO)
  }

  /** A server in any state echoes the hello and changes nothing, and the client takes it to be alive;
      an empty reply it takes to be dead. */
  lemma EchoMeansAlive(w: Option<Watch>)
    ensures HandleMsg(w, Hello()) == Served(w, Some(Hello()), None)
    ensures IsAlive(Hello()) == Some(true) && IsAlive([]) == Some(false)
  {
    hide DecControl, EncFields;
    Powers();
    ControlRoundTrip(HELLO, SEQ_ZERO, []);
    ControlPrefix(HELLO, SEQ_ZERO, [], 0);
    var fs := ControlFields(HELLO, SEQ_ZERO, []);
    assert EncControl(HELLO, SEQ_ZERO, [])[..0] == [];
    NoFields();
    assert fs[..0] == [];
    HelloNotEmpty();
  }

  /** And no other message is taken for the echo. */
  lemma OnlyHelloIsAlive(ctrl: int, seqNo: seq<byte>, data: seq<byte>)
    requires Sendable(ctrl, seqNo, data)
    ensures IsAlive(EncControl(ctrl, seqNo, data)) == Some(ctrl == 0)
  {
    hide DecControl, EncControl;
    ControlRoundTrip(ctrl, seqNo, data);
    ControlNotEmpty(ctrl, seqNo, data);
  }

  lemma ControlNotEmpty(ctrl: int, seqNo: seq<byte>, data: seq<byte>)
    ensures EncControl(ctrl, seqNo, data) != []
  {
    hide Body, Head;
    var fs := ControlFields(ctrl, seqNo, data);
    assert EncFields(fs) == EncField(fs[0]) + EncFields(fs[1..]);
    assert |EncField(fs[0])| >= 1;
  }

  lemma HelloNotEmpty()
    ensures Hello() != []
  {
    hide Body, Head;
    var fs := ControlFields(HELLO, SEQ_ZERO, []);
    assert EncFields(fs) == EncField(fs[0]) + EncFields(fs[1..]);
    assert |EncField(fs[0])| >= 1;
  }
}
