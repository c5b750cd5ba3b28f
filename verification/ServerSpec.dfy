/** What one server-side connection does, as functions on values
    (server/structures.cpp). The class in ServerConnection.dfy is proved to
    compute these functions.

    The environment is explicit: what recv() returned, what each send() accepted,
    the clock, the random session id and IVs. */
module ServerSpec {
  import opened Encoders
  import opened Crypto
  import opened Frames
  import opened Parsing

  datatype State = HANDSHAKE | ACTIVE | CLOSED

  datatype CloseReason =
    NATURAL | ENCRYPTION_ERROR | INVALID_REQUEST | REQUEST_TOO_LONG | SOCKET_ERROR

  /** Fixed for the life of a connection. `notifies` says an _onClose callback is set. */
  datatype Config = Config(suite: Suite, maxFrameSize: U32, notifies: bool)

  /** One sendFrame call as the environment sees it: the IV (None when RAND_bytes
      failed) and the successive return values of send(); past the end of
      `accepts`, send() fails. */
  datatype Attempt = Attempt(iv: Option<Bytes>, accepts: seq<int>)

  /** One buffer handed to the send loop, and how much of it got out. */
  datatype Emission = Emission(packet: Packet, pushed: nat)

  /** What an observer of the connection has seen. `prefix` counts the received
      bytes that were the client's handshake frame. */
  datatype Log = Log(
    received: Bytes, prefix: nat, wire: Bytes, calls: nat, sent: seq<Emission>,
    dispatched: seq<Frame>, closes: seq<CloseReason>)

  /** `crashed` marks a call stack that ran out inside the close/send recursion. */
  datatype Conn = Conn(
    fd: int, state: State, aesKey: Bytes, ssid: U64, fid: U32, lastCliFid: U32,
    inBuf: Bytes, crashed: bool, log: Log)

  const EMPTY_LOG: Log := Log([], 0, [], 0, [], [], [])

  function NewConn(fd: int): Conn {
    Conn(fd, HANDSHAKE, [], 0, 0, 0, [], false, EMPTY_LOG)
  }

  /** The characters "Connection secured". */
  const SECURED: Bytes :=
    [0x43, 0x6f, 0x6e, 0x6e, 0x65, 0x63, 0x74, 0x69, 0x6f, 0x6e, 0x20,
     0x73, 0x65, 0x63, 0x75, 0x72, 0x65, 0x64]

  function Ascii(s: string): Bytes {
    seq(|s|, i requires 0 <= i < |s| => s[i] as int % 256)
  }

  lemma SecuredText()
    ensures SECURED == Ascii("Connection secured")
  {
  }

  // -------- sending and closing --------

  /** What send() calls are ready to take before one returns 0 or less. */
  function Offered(accepts: seq<int>): nat {
    if accepts == [] || accepts[0] <= 0 then 0 else accepts[0] + Offered(accepts[1..])
  }

  /** Bytes out of `len` that a run of send() calls gets through before it is
      done or a call returns 0 or less. */
  function Pushed(len: nat, accepts: seq<int>): (n: nat)
    ensures n == Min(len, Offered(accepts))
  {
    if len == 0 || accepts == [] || accepts[0] <= 0 then 0
    else
      var m := if accepts[0] < len then accepts[0] else len;
      m + Pushed(len - m, accepts[1..])
  }

  function MakeRespFrame(s: Conn, path: Bytes, data: Bytes, status: Byte, flags: Byte, rid: U32): Frame {
    Frame(s.fid, rid, s.ssid, status, flags, path, data)
  }

  function Farewell(s: Conn): Frame {
    MakeRespFrame(s, [], [], STATUS_OK, 0, 0)
  }

  function NextFid(fid: U32): U32 {
    (fid + 1) % TWO32
  }

  /** sendFrame: `atts` are the outcomes of this call and of the sendFrame calls
      nested in it, outermost first; the stack is exhausted when they run out. */
  function Send(g: Config, s: Conn, f: Frame, atts: seq<Attempt>): Conn
    decreases |atts|, 0
  {
    if atts == [] then s.(crashed := true)
    else
      var s1 := s.(fid := NextFid(s.fid), log := s.log.(calls := s.log.calls + 1));
      match Encode(g.suite, f, true, s.aesKey, atts[0].iv, s1.fid)
      case Err(_) => Close(g, s1, ENCRYPTION_ERROR, true, atts[1..])
      case Ok(bytes) =>
        var s2 := Emit(s1, f, bytes, PushedTo(s.fd, bytes, atts[0]));
        if PushedTo(s.fd, bytes, atts[0]) == |bytes| then s2
        else Close(g, s2, SOCKET_ERROR, true, atts[1..])
  }

  /** send() on descriptor -1 fails at once. */
  function PushedTo(fd: int, bytes: Bytes, a: Attempt): (n: nat)
    ensures n <= |bytes|
  {
    if fd == -1 then 0 else Pushed(|bytes|, a.accepts)
  }

  function Emit(s: Conn, f: Frame, bytes: Bytes, n: nat): Conn
    requires n <= |bytes|
  {
    s.(log := s.log.(
      wire := s.log.wire + bytes[..n],
      sent := s.log.sent + [Emission(Packet(f.(fid := WireFid(f, s.fid)), bytes), n)]))
  }

  function Close(g: Config, s: Conn, reason: CloseReason, invoke: bool, atts: seq<Attempt>): Conn
    decreases |atts|, 1
  {
    if s.state == CLOSED then s
    else
      var s1 := if s.fd != -1 && reason != NATURAL then Send(g, s, Farewell(s), atts) else s;
      if s1.crashed then s1
      else Finish(g, s1, reason, invoke)
  }

  function Finish(g: Config, s: Conn, reason: CloseReason, invoke: bool): Conn {
    s.(fd := -1, state := CLOSED,
       log := s.log.(closes := s.log.closes + if invoke && g.notifies then [reason] else []))
  }

  // -------- reading --------

  /** How the recv() loop of one readFd ends. */
  datatype RecvEnd = WouldBlock | Eof | Failed

  datatype Input = Input(chunks: seq<Bytes>, end: RecvEnd, now: U32, ssid: Option<U64>, atts: seq<Attempt>)

  datatype Outcome = Outcome(conn: Conn, ok: bool)

  function ReaderOf(g: Config, s: Conn): Reader {
    if s.state == HANDSHAKE then PlainReader(g.suite, g.maxFrameSize)
    else SealedReader(g.suite, s.aesKey, g.maxFrameSize)
  }

  function ReasonFor(fault: Fault): CloseReason {
    if fault == TooLong then REQUEST_TOO_LONG else INVALID_REQUEST
  }

  /** _parseFrames: one frame at most before the key is set, all of them after. */
  function Parse(g: Config, s: Conn, atts: seq<Attempt>): (r: (Conn, seq<Frame>)) {
    var reader := ReaderOf(g, s);
    if s.state == HANDSHAKE then
      match ParseOne(reader, s.inBuf)
      case Need => (s, [])
      case Bad(fault) => (Close(g, s, ReasonFor(fault), true, atts), [])
      case Got(f, size) => (s.(inBuf := s.inBuf[size..]), [f])
    else
      var p := ParseAll(reader, s.inBuf);
      var s1 := s.(inBuf := p.rest);
      if p.fault.None? then (s1, p.frames)
      else (Close(g, s1, ReasonFor(p.fault.value), true, atts), p.frames)
  }

  /** The timestamp test, in 32-bit unsigned arithmetic. */
  predicate Timely(timestamp: U32, now: U32) {
    (timestamp - now) % TWO32 <= 60
  }

  function SecuredFrame(s: Conn): Frame {
    MakeRespFrame(s, [], SECURED, STATUS_OK, 0, 0)
  }

  /** _setAesKey; `ssid` is None when rand64 threw. */
  function SetAesKey(g: Config, s: Conn, key: Bytes, ssid: Option<U64>, atts: seq<Attempt>): Outcome {
    var s1 := s.(aesKey := key);
    if ssid.None? then Outcome(Close(g, s1, ENCRYPTION_ERROR, true, atts), false)
    else
      var s2 := s1.(ssid := ssid.value, log := s1.log.(prefix := |s.log.received| - Min(|s.inBuf|, |s.log.received|)));
      var s3 := Send(g, s2, SecuredFrame(s2), atts);
      if s3.crashed then Outcome(s3, false)
      else Outcome(s3.(state := ACTIVE), true)
  }

  function Min(a: nat, b: nat): nat {
    if a < b then a else b
  }

  /** The first frame: an RSA-encrypted AES key and a timestamp. */
  function Handshake(g: Config, s: Conn, sealedKey: Bytes, now: U32, ssid: Option<U64>, atts: seq<Attempt>): Outcome {
    match g.suite.rsaOpen(sealedKey)
    case None => Outcome(Close(g, s, ENCRYPTION_ERROR, true, atts), false)
    case Some(plain) =>
      if |plain| != KEY_SIZE + 4 then Outcome(Close(g, s, ENCRYPTION_ERROR, true, atts), false)
      else if !Timely(PtrToU32(plain[KEY_SIZE..]), now) then Outcome(Close(g, s, ENCRYPTION_ERROR, true, atts), false)
      else SetAesKey(g, s, plain[..KEY_SIZE], ssid, atts)
  }

  function Deliver(s: Conn, f: Frame): Conn {
    s.(lastCliFid := f.fid, log := s.log.(dispatched := s.log.dispatched + [f]))
  }

  /** The dispatch loop: validate, remember the id, hand the request over. */
  function Dispatch(g: Config, s: Conn, fs: seq<Frame>, atts: seq<Attempt>): Outcome
    decreases |fs|
  {
    if fs == [] then Outcome(s, true)
    else if !Fresh(s.ssid, s.lastCliFid, fs[0]) then Outcome(Close(g, s, INVALID_REQUEST, true, atts), false)
    else Dispatch(g, Deliver(s, fs[0]), fs[1..], atts)
  }

  function Append(s: Conn, bytes: Bytes): Conn {
    s.(inBuf := s.inBuf + bytes, log := s.log.(received := s.log.received + bytes))
  }

  /** What readFd does once the socket is drained. */
  function Process(g: Config, s: Conn, i: Input): Outcome {
    var (s1, frames) := Parse(g, s, i.atts);
    if s1.crashed then Outcome(s1, false)
    else if s1.state == HANDSHAKE && frames != [] then Handshake(g, s1, frames[0].data, i.now, i.ssid, i.atts)
    else if s1.state == ACTIVE then Dispatch(g, s1, frames, i.atts)
    else Outcome(s1, true)
  }

  function ReadFd(g: Config, s: Conn, i: Input): Outcome {
    if s.fd == -1 then Outcome(Close(g, s, SOCKET_ERROR, true, i.atts), false)
    else
      var s1 := Append(s, Concat(i.chunks));
      match i.end
      case Eof => Outcome(Close(g, s1, NATURAL, true, i.atts), false)
      case Failed => Outcome(Close(g, s1, SOCKET_ERROR, true, i.atts), false)
      case WouldBlock => Process(g, s1, i)
  }

  // -------- runs --------

  datatype Op =
    | Read(input: Input)
    | SendOp(frame: Frame, atts: seq<Attempt>)
    | CloseOp(reason: CloseReason, invoke: bool, atts: seq<Attempt>)

  function Step(g: Config, s: Conn, op: Op): Conn {
    if s.crashed then s
    else
      match op
      case Read(i) => ReadFd(g, s, i).conn
      case SendOp(f, atts) => Send(g, s, f, atts)
      case CloseOp(reason, invoke, atts) => Close(g, s, reason, invoke, atts)
  }

  function Run(g: Config, s: Conn, ops: seq<Op>): Conn
    decreases |ops|
  {
    if ops == [] then s else Run(g, Step(g, s, ops[0]), ops[1..])
  }
}
