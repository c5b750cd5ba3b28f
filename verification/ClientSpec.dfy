/** What the client's end of a session does, as functions on values
    (client/Connection.cpp). The class in ClientObject.dfy is proved to compute
    these functions. Each public method and each event of the loop is one step. */
module ClientSpec {
  import opened Encoders
  import opened Crypto
  import opened Frames
  import opened Parsing
  import opened ServerSpec

  datatype Phase = SHAKING | CONNECTED | SHUT

  datatype Settings = Settings(suite: Suite, maxFrameSize: U32, hasOnClose: bool)

  datatype Command = SendCmd(frame: Option<Frame>) | CloseCmd

  /** One frame handed to send(), which is called once and whose result is ignored. */
  datatype Emitted = Emitted(sealed: bool, packet: Packet, pushed: nat)

  datatype Trace = Trace(
    received: Bytes, wire: Bytes, sent: seq<Emitted>, delivered: seq<Frame>, closes: nat)

  /** `aborted`: a std::runtime_error left the loop's thread, which ends the process. */
  datatype Client = Client(
    phase: Phase, running: bool, aborted: bool, aesKey: Bytes, fid: U32, rid: U32, ssid: U64,
    lastSrvFid: U32, handshakeSent: bool, buffer: Bytes, queue: seq<Command>, trace: Trace)

  const NEW_CLIENT: Client :=
    Client(SHAKING, true, false, [], 0, 0, 0, 0, false, [], [], Trace([], [], [], [], 0))

  // -------- sending --------

  function MakeReqFrame(s: Client, path: Bytes, data: Bytes, flags: Byte): (Client, Frame) {
    var rid := NextFid(s.rid);
    (s.(rid := rid), Frame(s.fid, rid, s.ssid, STATUS_REQ, flags, path, data))
  }

  /** send and sendReq: the frame's session id is fixed here, its frame id later. */
  function Request(s: Client, path: Bytes, data: Bytes): (Client, bool) {
    if s.aborted || !s.running || s.phase == SHUT then (s, false)
    else
      var (s1, f) := MakeReqFrame(s, path, data, 0);
      (s1.(queue := s.queue + [SendCmd(Some(f))]), true)
  }

  function Shutdown(g: Settings, s: Client): Client {
    if !s.running || s.phase == SHUT then s
    else
      s.(phase := SHUT, running := false,
         trace := s.trace.(closes := s.trace.closes + if g.hasOnClose then 1 else 0))
  }

  /** A single send(): `accepted` is its result; the socket is gone once closed. */
  function Push(s: Client, sealed: bool, p: Packet, accepted: int): Client {
    var n := if s.phase == SHUT || accepted <= 0 then 0 else Min(accepted, |p.bytes|);
    s.(trace := s.trace.(
      wire := s.trace.wire + p.bytes[..n],
      sent := s.trace.sent + [Emitted(sealed, p, n)]))
  }

  function HandleCommand(g: Settings, s: Client, cmd: Command, iv: Option<Bytes>, accepted: int): Client {
    match cmd
    case CloseCmd => Shutdown(g, s)
    case SendCmd(None) => s.(aborted := true)
    case SendCmd(Some(f)) =>
      if s.phase == SHAKING then
        if s.handshakeSent then s
        else Push(s.(handshakeSent := true), false, Packet(f, EncodePlain(f, 0)), accepted)
      else
        var s1 := s.(fid := NextFid(s.fid));
        var f1 := f.(fid := s1.fid);
        match Encode(g.suite, f1, true, s.aesKey, iv, 0)
        case Err(_) => s1.(aborted := true)
        case Ok(bytes) => Push(s1, true, Packet(f1, bytes), accepted)
  }

  /** The drain loop over the command queue: one environment entry a command. */
  function PopAll(g: Settings, s: Client, env: seq<(Option<Bytes>, int)>): Client
    decreases |env|
  {
    if s.queue == [] || s.aborted || env == [] then s
    else PopAll(g, HandleCommand(g, s.(queue := s.queue[1..]), s.queue[0], env[0].0, env[0].1), env[1..])
  }

  /** What the loop's thread does first. `key` and `padding` are None when the
      key generation or the RSA encryption throws. */
  function DoHandshake(g: Settings, s: Client, key: Option<Bytes>, padding: Option<Bytes>, now: U32,
      accepted: int): Client {
    if key.None? then s.(aborted := true)
    else
      var s1 := s.(aesKey := key.value);
      if padding.None? then s1.(aborted := true)
      else
        var sealedKey := g.suite.rsaSeal(padding.value, key.value + BigEndian(4, now));
        var (s2, f) := MakeReqFrame(s1, [], sealedKey, 0);
        HandleCommand(g, s2, SendCmd(Some(f)), None, accepted)
  }

  // -------- receiving --------

  datatype Batch = Batch(client: Client, frames: seq<Frame>, threw: bool)

  function SessionReaderOf(g: Settings, s: Client): Reader {
    SealedReader(g.suite, s.aesKey, g.maxFrameSize)
  }

  /** _parseFrames; only FMXPException is caught. */
  function ParseBuffer(g: Settings, s: Client): Batch
    decreases |s.buffer|
  {
    match ParseOne(SessionReaderOf(g, s), s.buffer)
    case Need => Batch(s, [], false)
    case Bad(fault) =>
      if fault == Undecodable(Runtime) then Batch(s, [], true) else Batch(Shutdown(g, s), [], false)
    case Got(f, size) =>
      var s1 := s.(buffer := s.buffer[size..]);
      if s.phase == SHAKING then
        if f.data == SECURED then ParseBuffer(g, s1.(phase := CONNECTED, ssid := f.ssid))
        else Batch(s, [], true)
      else
        var b := ParseBuffer(g, s1);
        b.(frames := [f] + b.frames)
  }

  function Accept(s: Client, f: Frame): Client {
    s.(lastSrvFid := f.fid, trace := s.trace.(delivered := s.trace.delivered + [f]))
  }

  function DeliverAll(g: Settings, s: Client, fs: seq<Frame>): Client
    decreases |fs|
  {
    if fs == [] then s
    else if !Fresh(s.ssid, s.lastSrvFid, fs[0]) then Shutdown(g, s)
    else DeliverAll(g, Accept(s, fs[0]), fs[1..])
  }

  function Gather(s: Client, bytes: Bytes): Client {
    s.(buffer := s.buffer + bytes, trace := s.trace.(received := s.trace.received + bytes))
  }

  /** A readable socket: drain it, then parse and deliver even if it just closed. */
  function OnSocket(g: Settings, s: Client, chunks: seq<Bytes>, end: RecvEnd): Client {
    var s1 := Gather(s, Concat(chunks));
    Settle(g, if end == WouldBlock then s1 else Shutdown(g, s1))
  }

  /** Parse and deliver what is buffered. */
  function Settle(g: Settings, s: Client): Client {
    var batch := ParseBuffer(g, s);
    if batch.threw then batch.client.(aborted := true)
    else DeliverAll(g, batch.client, batch.frames)
  }

  // -------- runs --------

  datatype Event =
    | Ask(path: Bytes, data: Bytes)
    | PopCommand(iv: Option<Bytes>, accepted: int)
    | Arrive(chunks: seq<Bytes>, end: RecvEnd)
    | HangUp
    | CloseCall

  function Next(g: Settings, s: Client, e: Event): Client {
    if s.aborted || !s.running then s
    else
      match e
      case Ask(path, data) => Request(s, path, data).0
      case PopCommand(iv, accepted) =>
        if s.queue == [] then s
        else HandleCommand(g, s.(queue := s.queue[1..]), s.queue[0], iv, accepted)
      case Arrive(chunks, end) => OnSocket(g, s, chunks, end)
      case HangUp => Shutdown(g, s)
      case CloseCall => Shutdown(g, s)
  }

  function Runs(g: Settings, s: Client, es: seq<Event>): Client
    decreases |es|
  {
    if es == [] then s else Runs(g, Next(g, s, es[0]), es[1..])
  }
}
