/** Both ends of a session joined by two FIFO byte streams. Every interleaving of
    requests, queue drains, responses and reads, with every way of cutting the
    streams into reads, is a run of this system. */
module Session {
  import opened Encoders
  import opened Crypto
  import opened Frames
  import opened Parsing
  import opened ServerSpec
  import opened ServerLaws
  import opened ServerTheorems
  import opened ClientSpec
  import opened ClientLaws

  /** What is fixed for a session; both ends use the same suite and key pair. */
  datatype World = World(suite: Suite, serverMax: U32, clientMax: U32, key: Bytes, padding: Bytes, sentAt: U32)

  function ServerCfg(w: World): Config {
    Config(w.suite, w.serverMax, true)
  }

  function ClientCfg(w: World): Settings {
    Settings(w.suite, w.clientMax, true)
  }

  /** `up` and `down` are the bytes in flight to the server and to the client. */
  datatype Sys = Sys(cl: Client, sv: Conn, up: Bytes, down: Bytes)

  datatype Act =
    | ClientAsk(path: Bytes, data: Bytes)
    | ClientPop(iv: Bytes)
    | ServerRead(chunks: seq<Bytes>, now: U32, ssid: U64, att: Attempt)
    | ServerSend(frame: Frame, att: Attempt)
    | ClientRead(chunks: seq<Bytes>)

  /** More than any frame: a send() that takes everything. */
  const EVERYTHING: int := 0x10_0000_0000

  function Beyond(whole: Bytes, part: Bytes): Bytes {
    if |part| <= |whole| then whole[|part|..] else []
  }

  function ServerInput(a: Act): Input
    requires a.ServerRead?
  {
    Input(a.chunks, WouldBlock, a.now, Some(a.ssid), [a.att])
  }

  function Do(w: World, s: Sys, a: Act): Sys {
    match a
    case ClientAsk(path, data) => s.(cl := Next(ClientCfg(w), s.cl, Ask(path, data)))
    case ClientPop(iv) =>
      var cl := Next(ClientCfg(w), s.cl, PopCommand(Some(iv), EVERYTHING));
      s.(cl := cl, up := s.up + Beyond(cl.trace.wire, s.cl.trace.wire))
    case ServerRead(chunks, _, _, _) =>
      var sv := ReadFd(ServerCfg(w), s.sv, ServerInput(a)).conn;
      s.(sv := sv, up := Beyond(s.up, Concat(chunks)), down := s.down + Beyond(sv.log.wire, s.sv.log.wire))
    case ServerSend(frame, att) =>
      var sv := Send(ServerCfg(w), s.sv, frame, [att]);
      s.(sv := sv, down := s.down + Beyond(sv.log.wire, s.sv.log.wire))
    case ClientRead(chunks) =>
      s.(cl := Next(ClientCfg(w), s.cl, Arrive(chunks, WouldBlock)), down := Beyond(s.down, Concat(chunks)))
  }

  function Init(w: World, fd: int): Sys {
    var cl := Started(ClientCfg(w), w.key, w.padding, w.sentAt, EVERYTHING);
    Sys(cl, NewConn(fd), cl.trace.wire, [])
  }

  // -------- the assumptions --------

  /** An attempt with an IV whose writes, however partial, get n bytes out. */
  ghost predicate Completes(att: Attempt, n: nat) {
    att.iv.Some? && |att.iv.value| == IV_SIZE && Pushed(n, att.accepts) == n
  }

  /** Paths below 64 KiB and frames within the receiver's limit. */
  predicate Fits(f: Frame, max: U32) {
    |f.path| < TWO16 && 57 + |f.path| + |f.data| <= max
  }

  function SealedKey(w: World): Bytes {
    w.suite.rsaSeal(w.padding, w.key + BigEndian(4, w.sentAt))
  }

  ghost predicate GoodWorld(w: World) {
    && Lawful(w.suite) && |w.key| == KEY_SIZE
    && MIN_FRAME_SIZE + |SealedKey(w)| <= w.serverMax && 75 <= w.clientMax
  }

  /** What the network and the application promise at each step. */
  ghost predicate Allowed(w: World, s: Sys, a: Act) {
    match a
    case ClientAsk(_, _) => true
    case ClientPop(iv) =>
      && |iv| == IV_SIZE && s.cl.fid < TWO32 - 1
      && (s.cl.queue != [] && s.cl.queue[0].SendCmd? && s.cl.queue[0].frame.Some? ==>
            Fits(s.cl.queue[0].frame.value, w.serverMax))
    case ServerRead(chunks, now, _, att) =>
      && Concat(chunks) <= s.up && s.sv.state != CLOSED && s.sv.fid < TWO32 - 1
      && (s.sv.state == HANDSHAKE ==> Timely(w.sentAt, now))
      && Completes(att, 57) && Completes(att, 75)
    case ServerSend(f, att) =>
      && s.sv.state == ACTIVE && f.ssid == s.sv.ssid && s.sv.fid < TWO32 - 1
      && Fits(f, w.clientMax) && Completes(att, 57 + |f.path| + |f.data|)
    case ClientRead(chunks) => Concat(chunks) <= s.down
  }

  // -------- what both ends have sent --------

  function Requests(cl: Client): (ps: seq<Packet>)
    ensures |ps| == if cl.trace.sent == [] then 0 else |cl.trace.sent| - 1
    ensures forall i :: 0 <= i < |ps| ==> ps[i] == cl.trace.sent[i + 1].packet
  {
    if cl.trace.sent == [] then []
    else seq(|cl.trace.sent| - 1, i requires 0 <= i < |cl.trace.sent| - 1 => cl.trace.sent[i + 1].packet)
  }

  function Responses(sv: Conn): seq<Packet> {
    Packets(sv.log.sent)
  }

  ghost predicate Consecutive(ps: seq<Packet>) {
    forall i :: 0 <= i < |ps| ==> ps[i].frame.fid == i + 1
  }

  ghost predicate OfSession(ps: seq<Packet>, ssid: U64) {
    forall i :: 0 <= i < |ps| ==> ps[i].frame.ssid == ssid
  }

  function ServerReader(w: World): Reader {
    SealedReader(w.suite, w.key, w.serverMax)
  }

  function ClientReader(w: World): Reader {
    SealedReader(w.suite, w.key, w.clientMax)
  }

  function HandshakeFrame(w: World): Frame {
    Frame(0, 1, 0, STATUS_REQ, 0, [], SealedKey(w))
  }

  // -------- the invariant --------

  ghost predicate ClientOk(w: World, s: Sys) {
    && s.cl.running && !s.cl.aborted && s.cl.aesKey == w.key && s.cl.phase != SHUT
    && s.cl.handshakeSent && |s.cl.trace.sent| >= 1
    && (forall i :: 0 <= i < |s.cl.queue| ==> s.cl.queue[i].SendCmd? && s.cl.queue[i].frame.Some?)
    && s.cl.fid == |Requests(s.cl)|
    && AllReadable(ServerReader(w), Requests(s.cl)) && Consecutive(Requests(s.cl))
    && (s.cl.phase == SHAKING ==>
          Requests(s.cl) == [] && s.cl.trace.delivered == [] && s.cl.lastSrvFid == 0)
  }

  /** Before the server has the key. */
  ghost predicate Opening(w: World, s: Sys) {
    && s.sv.state == HANDSHAKE && s.sv.fd != -1 && s.sv.fid == 0 && s.sv.lastCliFid == 0
    && s.sv.aesKey == [] && s.sv.log.dispatched == [] && s.sv.log.sent == []
    && s.sv.inBuf + s.up == EncodePlain(HandshakeFrame(w), 0) && s.up != []
    && s.cl.phase == SHAKING && s.cl.buffer == [] && s.down == []
  }

  /** The requests: dispatched so far, the rest buffered or in flight. */
  ghost predicate UpStream(w: World, s: Sys) {
    var ps, k := Requests(s.cl), |s.sv.log.dispatched|;
    && s.sv.state != HANDSHAKE && s.sv.aesKey == w.key
    && k <= |ps| && s.sv.log.dispatched == Payloads(ps[..k])
    && (s.sv.state == ACTIVE ==>
          && s.sv.fd != -1 && s.sv.lastCliFid == k
          && s.sv.inBuf + s.up == Stream(ps[k..])
          && ParseOne(ServerReader(w), s.sv.inBuf) == Need)
    && (s.sv.state == CLOSED ==> k < |ps| && ps[k].frame.ssid != s.sv.ssid)
  }

  /** The responses: delivered so far, the rest buffered or in flight. */
  ghost predicate DownStream(w: World, s: Sys) {
    var ps, j := Responses(s.sv), |s.cl.trace.delivered|;
    && s.sv.fid == |ps| && |ps| >= 1 && ps[0].frame.data == SECURED
    && AllReadable(ClientReader(w), ps) && Consecutive(ps) && OfSession(ps, s.sv.ssid)
    && ParseOne(ClientReader(w), s.cl.buffer) == Need
    && (s.cl.phase == SHAKING ==> s.cl.buffer + s.down == Stream(ps))
    && (s.cl.phase == CONNECTED ==>
          && s.cl.ssid == s.sv.ssid
          && j + 1 <= |ps| && s.cl.trace.delivered == Payloads(ps[1..j + 1])
          && s.cl.lastSrvFid == (if j == 0 then 0 else j + 1)
          && s.cl.buffer + s.down == Stream(ps[j + 1..]))
  }

  ghost predicate Good(w: World, s: Sys) {
    && GoodWorld(w) && ClientOk(w, s) && !s.sv.crashed
    && (Opening(w, s) || (UpStream(w, s) && DownStream(w, s)))
  }

  // -------- one sealed frame going out --------

  /** sv after a complete sendFrame that put packet p on the wire. */
  function SentState(sv: Conn, p: Packet): Conn {
    sv.(fid := NextFid(sv.fid),
        log := sv.log.(calls := sv.log.calls + 1, wire := sv.log.wire + p.bytes,
                       sent := sv.log.sent + [Emission(p, |p.bytes|)]))
  }

  lemma SendWhole(g: Config, sv: Conn, f: Frame, att: Attempt, bytes: Bytes)
    requires Encode(g.suite, f, true, sv.aesKey, att.iv, NextFid(sv.fid)) == Ok(bytes)
    requires sv.fd != -1 && Pushed(|bytes|, att.accepts) == |bytes|
    ensures Send(g, sv, f, [att]) == SentState(sv, Packet(f.(fid := WireFid(f, NextFid(sv.fid))), bytes))
  {
    hide Encode, Close;
    assert bytes[..|bytes|] == bytes;
    assert [att][0] == att;
  }

  /** A complete sendFrame puts a packet on the wire that the client can read. */
  lemma SendSucceeds(w: World, sv: Conn, f: Frame, att: Attempt) returns (p: Packet)
    requires Lawful(w.suite) && |w.key| == KEY_SIZE && sv.aesKey == w.key && sv.fd != -1
    requires Fits(f, w.clientMax) && Completes(att, 57 + |f.path| + |f.data|) && sv.fid < TWO32 - 1
    ensures Readable(ClientReader(w), p) && p.frame == f.(fid := sv.fid + 1)
    ensures Send(ServerCfg(w), sv, f, [att]) == SentState(sv, p)
  {
    hide Encode, Send, Lawful, Readable, SealedReader;
    SealedIsReadable(w.suite, w.key, w.clientMax, f, att.iv.value, sv.fid + 1);
    var bytes := Encode(w.suite, f, true, w.key, att.iv, sv.fid + 1).value;
    SendWhole(ServerCfg(w), sv, f, att, bytes);
    p := Packet(f.(fid := sv.fid + 1), bytes);
  }

  lemma PacketsAppend(es: seq<Emission>, e: Emission)
    ensures Packets(es + [e]) == Packets(es) + [e.packet]
  {
  }

  /** One more response on the wire. */
  lemma DownStreamGrows(w: World, s: Sys, t: Sys, p: Packet)
    requires DownStream(w, s) && t.cl == s.cl && t.sv.ssid == s.sv.ssid
    requires Responses(t.sv) == Responses(s.sv) + [p] && t.sv.fid == s.sv.fid + 1 && t.down == s.down + p.bytes
    requires Readable(ClientReader(w), p) && p.frame.fid == s.sv.fid + 1 && p.frame.ssid == s.sv.ssid
    ensures DownStream(w, t)
  {
    hide ParseOne, SealedReader, Readable, Stream;
    var ps, qs := Responses(s.sv), Responses(t.sv);
    var j := |s.cl.trace.delivered|;
    var from := if s.cl.phase == SHAKING then 0 else j + 1;
    assert ps[0..] == ps && qs[0..] == qs;
    if s.cl.phase != SHUT {
      assert qs[from..] == ps[from..] + [p];
      StreamPush(ps[from..], p);
      Joined(s.cl.buffer, s.down, p.bytes);
    }
    assert s.cl.phase == CONNECTED ==> qs[1..j + 1] == ps[1..j + 1];
  }

  lemma BeyondAppend(a: Bytes, b: Bytes)
    ensures Beyond(a + b, a) == b
  {
  }

  lemma ServerSendGood(w: World, s: Sys, a: Act)
    requires Good(w, s) && a.ServerSend? && Allowed(w, s, a)
    ensures Good(w, Do(w, s, a))
  {
    hide Send, Stream, ParseOne, SealedReader, Lawful, Pushed, Readable;
    var p := SendSucceeds(w, s.sv, a.frame, a.att);
    SentGood(w, s, Do(w, s, a), p);
  }

  /** What a complete send keeps. */
  lemma SentGood(w: World, s: Sys, t: Sys, p: Packet)
    requires UpStream(w, s) && DownStream(w, s) && s.sv.fid < TWO32 - 1
    requires Readable(ClientReader(w), p) && p.frame.fid == s.sv.fid + 1 && p.frame.ssid == s.sv.ssid
    requires t == s.(sv := SentState(s.sv, p), down := s.down + Beyond(SentState(s.sv, p).log.wire, s.sv.log.wire))
    ensures UpStream(w, t) && DownStream(w, t)
  {
    hide Stream, ParseOne, SealedReader, Readable;
    BeyondAppend(s.sv.log.wire, p.bytes);
    PacketsAppend(s.sv.log.sent, Emission(p, |p.bytes|));
    DownStreamGrows(w, s, t, p);
  }

  // -------- the client's steps --------

  lemma ClientAskGood(w: World, s: Sys, a: Act)
    requires Good(w, s) && a.ClientAsk?
    ensures Good(w, Do(w, s, a))
  {
    hide Stream, ParseOne, SealedReader, Lawful;
    var t := Do(w, s, a);
    assert Requests(t.cl) == Requests(s.cl);
  }

  /** The client state after a popped request went out whole. */
  function PoppedState(cl: Client, p: Packet): Client
    requires cl.queue != []
  {
    cl.(queue := cl.queue[1..], fid := NextFid(cl.fid),
        trace := cl.trace.(wire := cl.trace.wire + p.bytes, sent := cl.trace.sent + [Emitted(true, p, |p.bytes|)]))
  }

  lemma PopSucceeds(w: World, cl: Client, iv: Bytes) returns (p: Packet)
    requires Lawful(w.suite) && |w.key| == KEY_SIZE && |iv| == IV_SIZE
    requires cl.phase == CONNECTED && cl.running && !cl.aborted && cl.aesKey == w.key && cl.fid < TWO32 - 1
    requires cl.queue != [] && cl.queue[0].SendCmd? && cl.queue[0].frame.Some?
    requires Fits(cl.queue[0].frame.value, w.serverMax)
    ensures Readable(ServerReader(w), p) && p.frame == cl.queue[0].frame.value.(fid := cl.fid + 1)
    ensures Next(ClientCfg(w), cl, PopCommand(Some(iv), EVERYTHING)) == PoppedState(cl, p)
  {
    hide Encode, Lawful, Readable, SealedReader;
    var f := cl.queue[0].frame.value.(fid := cl.fid + 1);
    SealedIsReadable(w.suite, w.key, w.serverMax, f, iv, 0);
    var bytes := Encode(w.suite, f, true, w.key, Some(iv), 0).value;
    p := Packet(f, bytes);
    assert bytes[..|bytes|] == bytes;
  }

  lemma RequestsGrow(cl: Client, p: Packet)
    requires cl.trace.sent != [] && cl.queue != []
    ensures Requests(PoppedState(cl, p)) == Requests(cl) + [p]
  {
  }

  /** Nothing queued, or a request popped during the handshake and dropped. */
  lemma PopEmitsNothing(w: World, s: Sys, a: Act)
    requires Good(w, s) && a.ClientPop? && (s.cl.queue == [] || s.cl.phase == SHAKING)
    ensures Good(w, Do(w, s, a))
  {
    hide Stream, ParseOne, SealedReader, Lawful, Readable, EncodePlain, Encode, Requests;
    var t := Do(w, s, a);
    assert t.cl == s.cl.(queue := t.cl.queue);
    assert Beyond(s.cl.trace.wire, s.cl.trace.wire) == [];
    assert s.up + [] == s.up;
    SameRequests(s.cl, t.cl);
  }

  lemma SameRequests(c: Client, d: Client)
    requires c.trace.sent == d.trace.sent
    ensures Requests(c) == Requests(d)
  {
  }

  lemma ClientPopGood(w: World, s: Sys, a: Act)
    requires Good(w, s) && a.ClientPop? && Allowed(w, s, a)
    ensures Good(w, Do(w, s, a))
  {
    hide Stream, ParseOne, SealedReader, Lawful, Readable, EncodePlain, Next, DownStream, UpStream, Requests;
    if s.cl.queue == [] || s.cl.phase == SHAKING {
      PopEmitsNothing(w, s, a);
    } else {
      var t := Do(w, s, a);
      var p := PopSucceeds(w, s.cl, a.iv);
      BeyondAppend(s.cl.trace.wire, p.bytes);
      RequestsGrow(s.cl, p);
      UpStreamGrows(w, s, t, p);
      DownStreamKeeps(w, s, t);
      NextReadable(ServerReader(w), Requests(s.cl), p);
    }
  }

  lemma NextReadable(r: Reader, ps: seq<Packet>, p: Packet)
    requires AllReadable(r, ps) && Consecutive(ps) && Readable(r, p) && p.frame.fid == |ps| + 1
    ensures AllReadable(r, ps + [p]) && Consecutive(ps + [p])
  {
    hide Readable;
  }

  lemma DownStreamKeeps(w: World, s: Sys, t: Sys)
    requires DownStream(w, s) && t.sv == s.sv && t.down == s.down
    requires t.cl.phase == s.cl.phase && t.cl.buffer == s.cl.buffer && t.cl.ssid == s.cl.ssid
    requires t.cl.trace.delivered == s.cl.trace.delivered && t.cl.lastSrvFid == s.cl.lastSrvFid
    ensures DownStream(w, t)
  {
    hide Stream, ParseOne, SealedReader;
  }

  /** One more request in flight. */
  lemma UpStreamGrows(w: World, s: Sys, t: Sys, p: Packet)
    requires UpStream(w, s) && t.sv == s.sv && t.up == s.up + p.bytes && Requests(t.cl) == Requests(s.cl) + [p]
    ensures UpStream(w, t)
  {
    hide ParseOne, SealedReader, Stream;
    var ps, qs := Requests(s.cl), Requests(t.cl);
    var k := |s.sv.log.dispatched|;
    assert qs[..k] == ps[..k];
    assert qs[k..] == ps[k..] + [p];
    StreamPush(ps[k..], p);
    Joined(s.sv.inBuf, s.up, p.bytes);
  }

  // -------- the server reading --------

  /** Consecutive ids are always fresh: only a foreign session id is refused. */
  lemma {:induction false} ConsecutiveAccepted(ssid: U64, last: U32, fs: seq<Frame>)
    requires forall i :: 0 <= i < |fs| ==> fs[i].fid == last + 1 + i
    ensures var a := Accepted(ssid, last, fs);
            LastFid(last, a) == last + |a| && (a == fs || fs[|a|].ssid != ssid)
    decreases |fs|
  {
    if fs != [] && fs[0].ssid == ssid {
      forall i | 0 <= i < |fs[1..]|
        ensures fs[1..][i].fid == fs[0].fid + 1 + i
      {
        assert fs[1..][i] == fs[i + 1];
      }
      ConsecutiveAccepted(ssid, fs[0].fid, fs[1..]);
      assert fs == [fs[0]] + fs[1..];
    }
  }

  lemma SliceReadable(r: Reader, ps: seq<Packet>, k: nat)
    requires k <= |ps| && AllReadable(r, ps)
    ensures AllReadable(r, ps[k..])
  {
    hide Readable;
  }

  lemma PayloadsJoin(ps: seq<Packet>, k: nat, n: nat)
    requires k + n <= |ps|
    ensures Payloads(ps[..k]) + Payloads(ps[k..][..n]) == Payloads(ps[..k + n])
  {
  }

  /** The batch a read of an honest stream yields. */
  lemma ServerBatch(w: World, s: Sys, x: Bytes) returns (j: nat)
    requires Good(w, s) && s.sv.state == ACTIVE && x <= s.up
    ensures var ps, k := Requests(s.cl), |s.sv.log.dispatched|;
            var p := ParseAll(ServerReader(w), s.sv.inBuf + x);
            && k + j <= |ps| && p == Parsed(Payloads(ps[k..][..j]), p.rest, None)
            && ParseOne(ServerReader(w), p.rest) == Need
            && p.rest + Beyond(s.up, x) == Stream(ps[k + j..])
            && (forall i :: 0 <= i < j ==> p.frames[i].fid == k + 1 + i && p.frames[i] == ps[k + i].frame)
  {
    hide Stream, ParseOne, ParseAll, SealedReader, Lawful, Readable;
    var ps, k := Requests(s.cl), |s.sv.log.dispatched|;
    var r := ServerReader(w);
    var b, later := s.sv.inBuf + x, Beyond(s.up, x);
    assert s.up == x + later;
    Joined(s.sv.inBuf, x, later);
    SliceReadable(r, ps, k);
    j := CutStream(r, ps[k..], b, later);
    ParseAllStops(r, b);
    assert ps[k..][j..] == ps[k + j..];
  }

  lemma ProcessActive(g: Config, s: Conn, i: Input)
    requires s.state == ACTIVE && !s.crashed && s.fd != -1 && i.end == WouldBlock
    ensures var p := ParseAll(SessionReader(g, s), s.inBuf + Concat(i.chunks));
            p.fault.None? ==>
              ReadFd(g, s, i) == Dispatch(g, Append(s, Concat(i.chunks)).(inBuf := p.rest), p.frames, i.atts)
  {
    hide ParseAll, SealedReader, Dispatch, Close, Concat;
  }

  /** n more requests dispatched, the connection going on or refusing the next. */
  lemma UpStreamTakes(w: World, s: Sys, t: Sys, n: nat)
    requires UpStream(w, s) && t.cl == s.cl && |s.sv.log.dispatched| + n <= |Requests(s.cl)|
    requires t.sv.aesKey == w.key && t.sv.ssid == s.sv.ssid && t.sv.state != HANDSHAKE
    requires t.sv.log.dispatched == s.sv.log.dispatched + Payloads(Requests(s.cl)[|s.sv.log.dispatched|..][..n])
    requires t.sv.state == ACTIVE ==>
               && t.sv.fd != -1 && t.sv.lastCliFid == |s.sv.log.dispatched| + n
               && t.sv.inBuf + t.up == Stream(Requests(s.cl)[|s.sv.log.dispatched| + n..])
               && ParseOne(ServerReader(w), t.sv.inBuf) == Need
    requires t.sv.state == CLOSED ==>
               && |s.sv.log.dispatched| + n < |Requests(s.cl)|
               && Requests(s.cl)[|s.sv.log.dispatched| + n].frame.ssid != s.sv.ssid
    ensures UpStream(w, t)
  {
    hide Stream, ParseOne, SealedReader;
    PayloadsJoin(Requests(s.cl), |s.sv.log.dispatched|, n);
  }

  lemma DownStreamSame(w: World, s: Sys, t: Sys)
    requires DownStream(w, s) && t.cl == s.cl && t.down == s.down
    requires t.sv.fid == s.sv.fid && t.sv.ssid == s.sv.ssid && t.sv.log.sent == s.sv.log.sent
    ensures DownStream(w, t)
  {
    hide Stream, ParseOne, SealedReader;
  }

  /** Reading on: what the read makes of the server's end, by how far it gets. */
  lemma ServerReadIs(w: World, s: Sys, a: Act) returns (d: Conn, n: nat, refused: bool)
    requires Good(w, s) && a.ServerRead? && Allowed(w, s, a) && s.sv.state == ACTIVE
    ensures var ps, k := Requests(s.cl), |s.sv.log.dispatched|;
            && k + n <= |ps| && d.log.dispatched == s.sv.log.dispatched + Payloads(ps[k..][..n])
            && d == s.sv.(inBuf := d.inBuf, lastCliFid := k + n,
                          log := s.sv.log.(received := d.log.received, dispatched := d.log.dispatched))
            && (!refused ==>
                  && ReadFd(ServerCfg(w), s.sv, ServerInput(a)).conn == d
                  && ParseOne(ServerReader(w), d.inBuf) == Need
                  && d.inBuf + Beyond(s.up, Concat(a.chunks)) == Stream(ps[k + n..]))
            && (refused ==>
                  && k + n < |ps| && ps[k + n].frame.ssid != s.sv.ssid
                  && ReadFd(ServerCfg(w), s.sv, ServerInput(a)).conn
                     == Close(ServerCfg(w), d, INVALID_REQUEST, true, [a.att]))
  {
    hide Stream, ParseOne, ParseAll, SealedReader, Lawful, Readable, Pushed,
      Dispatch, Close, ReadFd, Concat, Accepted, Timely, DownStream, UpStream, Good, Completes, Stream;
    GoodActive(w, s);
    var g, x, atts := ServerCfg(w), Concat(a.chunks), [a.att];
    var ps, k := Requests(s.cl), |s.sv.log.dispatched|;
    var j := ServerBatch(w, s, x);
    var p := ParseAll(ServerReader(w), s.sv.inBuf + x);
    var s2 := Append(s.sv, x).(inBuf := p.rest);
    ProcessActive(g, s.sv, ServerInput(a));
    DispatchIs(g, s2, p.frames, atts);
    ConsecutiveAccepted(s.sv.ssid, k, p.frames);
    var acc := Accepted(s.sv.ssid, k, p.frames);
    n := |acc|;
    d := Delivered(s2, acc);
    refused := acc != p.frames;
    assert acc == p.frames[..n] == Payloads(ps[k..][..n]);
  }

  lemma ServerReadsOn(w: World, s: Sys, a: Act)
    requires Good(w, s) && a.ServerRead? && Allowed(w, s, a) && s.sv.state == ACTIVE
    ensures Good(w, Do(w, s, a)) && Do(w, s, a).sv.fid <= s.sv.fid + 1
  {
    hide Stream, ParseOne, SealedReader, Lawful, Readable, Pushed, Close, ReadFd, Concat, Timely,
      UpStream, DownStream, Requests;
    GoodActive(w, s);
    SameRequests(s.cl, Do(w, s, a).cl);
    var d, n, refused := ServerReadIs(w, s, a);
    var t := Do(w, s, a);
    if !refused {
      assert Beyond(s.sv.log.wire, s.sv.log.wire) == [];
      assert s.down + [] == s.down;
      DownStreamSame(w, s, t);
    } else {
      var q := RefusedRead(w, d, a.att);
      var u := s.(sv := d);
      DownStreamSame(w, s, u);
      BeyondAppend(s.sv.log.wire, q.bytes);
      PacketsAppend(s.sv.log.sent, Emission(q, |q.bytes|));
      DownStreamGrows(w, u, t, q);
    }
    UpStreamTakes(w, s, t, n);
  }

  lemma GoodActive(w: World, s: Sys)
    requires Good(w, s) && s.sv.state == ACTIVE
    ensures s.sv.aesKey == w.key && s.sv.fd != -1 && s.sv.lastCliFid == |s.sv.log.dispatched| && !s.sv.crashed
    ensures UpStream(w, s) && DownStream(w, s)
  {
    hide Stream, ParseOne, SealedReader, Lawful, Readable;
  }

  /** A refused frame: the farewell gets out and the connection closes. */
  lemma RefusedRead(w: World, d: Conn, att: Attempt) returns (p: Packet)
    requires GoodWorld(w) && Completes(att, 57)
    requires d.state == ACTIVE && d.fd != -1 && d.aesKey == w.key && !d.crashed && d.fid < TWO32 - 1
    ensures Readable(ClientReader(w), p) && p.frame.fid == d.fid + 1 && p.frame.ssid == d.ssid
    ensures Close(ServerCfg(w), d, INVALID_REQUEST, true, [att])
            == Finish(ServerCfg(w), SentState(d, p), INVALID_REQUEST, true)
  {
    hide Lawful, Readable, SealedReader, Send, Pushed;
    p := SendSucceeds(w, d, Farewell(d), att);
  }

  // -------- the server taking the handshake --------

  lemma HandshakePayload(w: World)
    requires GoodWorld(w)
    ensures var plain := w.key + BigEndian(4, w.sentAt);
            && w.suite.rsaOpen(SealedKey(w)) == Some(plain)
            && |plain| == KEY_SIZE + 4 && plain[..KEY_SIZE] == w.key && PtrToU32(plain[KEY_SIZE..]) == w.sentAt
  {
    hide BigEndian, Value;
    var plain := w.key + BigEndian(4, w.sentAt);
    assert plain[KEY_SIZE..] == BigEndian(4, w.sentAt);
    ReadBack(0, w.sentAt, 0);
  }

  /** The handshake frame arriving, in part or whole. */
  lemma HandshakeBytes(w: World, b: Bytes, later: Bytes)
    requires GoodWorld(w) && b + later == EncodePlain(HandshakeFrame(w), 0)
    ensures ParseOne(PlainReader(w.suite, w.serverMax), b)
         == if later == [] then Got(HandshakeFrame(w), |b|) else Need
  {
    hide ParseOne, PlainReader, EncodePlain, Lawful;
    var whole := EncodePlain(HandshakeFrame(w), 0);
    PlainIsReadable(w.suite, w.serverMax, HandshakeFrame(w));
    if later == [] {
      assert b == whole;
    } else {
      assert b == whole[..|b|];
      StrictPrefixNeedsMore(PlainReader(w.suite, w.serverMax), whole, b);
    }
  }

  lemma ServerTakesHandshake(w: World, s: Sys, a: Act)
    requires Good(w, s) && a.ServerRead? && Allowed(w, s, a) && s.sv.state == HANDSHAKE
    ensures Good(w, Do(w, s, a)) && Do(w, s, a).sv.fid <= s.sv.fid + 1
    ensures Concat(a.chunks) == s.up ==>
              var t := Do(w, s, a).sv;
              t.state == ACTIVE && t.ssid == a.ssid && t.log.dispatched == [] && t.log.closes == s.sv.log.closes
  {
    hide ParseOne, PlainReader, SealedReader, EncodePlain, Lawful, Readable, Pushed,
      Handshake, Send, ReadFd, Concat, Timely, Stream;
    var g, x := ServerCfg(w), Concat(a.chunks);
    var later := Beyond(s.up, x);
    assert s.up == x + later;
    Joined(s.sv.inBuf, x, later);
    HandshakeBytes(w, s.sv.inBuf + x, later);
    ReadInHandshake(g, s.sv, ServerInput(a));
    if later != [] {
      assert Beyond(s.sv.log.wire, s.sv.log.wire) == [];
      assert s.down + [] == s.down;
    } else {
      var s1 := Append(s.sv, x);
      var s2 := s1.(inBuf := s1.inBuf[|s1.inBuf|..]);
      SessionOpens(w, s2, a);
      var p := OpeningReply(w, s2, a);
      OpenedGood(w, s, Do(w, s, a), p);
    }
  }

  function KeyedState(s: Conn, key: Bytes, ssid: U64): Conn {
    s.(aesKey := key, ssid := ssid,
       log := s.log.(prefix := |s.log.received| - Min(|s.inBuf|, |s.log.received|)))
  }

  lemma SessionOpens(w: World, s: Conn, a: Act)
    requires GoodWorld(w) && a.ServerRead? && Timely(w.sentAt, a.now)
    ensures var t := Send(ServerCfg(w), KeyedState(s, w.key, a.ssid), SecuredFrame(KeyedState(s, w.key,
            a.ssid)), [a.att]);
            Handshake(ServerCfg(w), s, SealedKey(w), a.now, Some(a.ssid), [a.att])
            == if t.crashed then Outcome(t, false) else Outcome(t.(state := ACTIVE), true)
  {
    hide Send, Timely, Lawful, BigEndian;
    HandshakePayload(w);
  }

  lemma OpeningReply(w: World, s: Conn, a: Act) returns (p: Packet)
    requires GoodWorld(w) && a.ServerRead? && Completes(a.att, 75) && s.fd != -1 && s.fid == 0
    ensures var k := KeyedState(s, w.key, a.ssid);
            && Readable(ClientReader(w), p) && p.frame == SecuredFrame(k).(fid := 1)
            && Send(ServerCfg(w), k, SecuredFrame(k), [a.att]) == SentState(k, p)
  {
    hide Send, Lawful, Readable, SealedReader, Pushed;
    var k := KeyedState(s, w.key, a.ssid);
    assert |SECURED| == 18;
    p := SendSucceeds(w, k, SecuredFrame(k), a.att);
  }

  lemma OpenedGood(w: World, s: Sys, t: Sys, p: Packet)
    requires Good(w, s) && s.sv.state == HANDSHAKE && t.cl == s.cl && t.up == []
    requires t.sv.state == ACTIVE && t.sv.aesKey == w.key && t.sv.inBuf == [] && t.sv.fd == s.sv.fd && !t.sv.crashed
    requires t.sv.log.sent == [Emission(p, |p.bytes|)] && t.sv.fid == 1 && t.sv.log.dispatched == []
            && t.sv.lastCliFid == 0
    requires t.down == p.bytes && Readable(ClientReader(w), p)
    requires p.frame.fid == 1 && p.frame.ssid == t.sv.ssid && p.frame.data == SECURED
    ensures Good(w, t)
  {
    hide ParseOne, SealedReader, Lawful, Readable, EncodePlain;
    assert Responses(t.sv) == [p];
    assert Stream([p]) == p.bytes + Stream([]);
    assert Stream([]) == [];
    NeedsMore(ServerReader(w), []);
    NeedsMore(ClientReader(w), []);
    assert Payloads(Requests(t.cl)[..0]) == [];
    assert Requests(t.cl)[0..] == [];
  }

  // -------- the client reading --------

  /** What remains of an honest response stream after a read, and what it held. */
  lemma ClientBatch(w: World, ps: seq<Packet>, from: nat, b: Bytes, later: Bytes) returns (n: nat)
    requires from <= |ps| && AllReadable(ClientReader(w), ps) && b + later == Stream(ps[from..])
    ensures var p := ParseAll(ClientReader(w), b);
            && from + n <= |ps| && p == Parsed(Payloads(ps[from..][..n]), p.rest, None)
            && ParseOne(ClientReader(w), p.rest) == Need
            && p.rest + later == Stream(ps[from + n..])
            && (forall i :: 0 <= i < n ==> p.frames[i] == ps[from + i].frame)
  {
    hide Stream, ParseOne, ParseAll, SealedReader, Readable;
    SliceReadable(ClientReader(w), ps, from);
    n := CutStream(ClientReader(w), ps[from..], b, later);
    ParseAllStops(ClientReader(w), b);
    assert ps[from..][n..] == ps[from + n..];
  }

  /** An honest batch is accepted whole. */
  lemma {:induction false} HonestAccepted(ssid: U64, last: U32, fs: seq<Frame>)
    requires forall i :: 0 <= i < |fs| ==> fs[i].ssid == ssid && fs[i].fid > last
    requires forall i, j :: 0 <= i < j < |fs| ==> fs[i].fid < fs[j].fid
    ensures Accepted(ssid, last, fs) == fs
    decreases |fs|
  {
    if fs != [] {
      HonestAccepted(ssid, fs[0].fid, fs[1..]);
    }
  }

  lemma PayloadsMid(ps: seq<Packet>, j: nat, n: nat)
    requires j + n + 1 <= |ps|
    ensures Payloads(ps[1..j + 1]) + Payloads(ps[j + 1..][..n]) == Payloads(ps[1..j + n + 1])
  {
  }

  /** A CONNECTED client reading: the responses wholly there are delivered. */
  lemma ConnectedRead(w: World, c: Client, ps: seq<Packet>, down: Bytes, ssid: U64) returns (n: nat)
    requires c.phase == CONNECTED && c.running && !c.aborted && c.aesKey == w.key && c.ssid == ssid
    requires AllReadable(ClientReader(w), ps) && Consecutive(ps) && OfSession(ps, ssid)
    requires |c.trace.delivered| + 1 <= |ps|
    requires c.lastSrvFid == (if |c.trace.delivered| == 0 then 0 else |c.trace.delivered| + 1)
    requires c.trace.delivered == Payloads(ps[1..|c.trace.delivered| + 1])
    requires c.buffer + down == Stream(ps[|c.trace.delivered| + 1..])
    ensures var t := Settle(ClientCfg(w), c);
            var j := |c.trace.delivered| + n;
            && t == c.(buffer := t.buffer, lastSrvFid := t.lastSrvFid,
                  trace := c.trace.(delivered := t.trace.delivered))
            && |t.trace.delivered| == j && j + 1 <= |ps| && t.trace.delivered == Payloads(ps[1..j + 1])
            && t.lastSrvFid == (if j == 0 then 0 else j + 1)
            && t.buffer + down == Stream(ps[j + 1..]) && ParseOne(ClientReader(w), t.buffer) == Need
  {
    hide Stream, ParseOne, ParseAll, SealedReader, Readable, ParseBuffer, DeliverAll, Accepted, Payloads, AllReadable;
    var j0 := |c.trace.delivered|;
    n := ClientBatch(w, ps, j0 + 1, c.buffer, down);
    var p := ParseAll(ClientReader(w), c.buffer);
    ParseBufferIs(ClientCfg(w), c);
    HonestAccepted(ssid, c.lastSrvFid, p.frames);
    DeliverAllIs(ClientCfg(w), c.(buffer := p.rest), p.frames);
    PayloadsMid(ps, j0, n);
    assert n > 0 ==> LastFid(c.lastSrvFid, p.frames) == ps[j0 + n].frame.fid;
  }

  lemma ClientReadsOn(w: World, s: Sys, a: Act)
    requires Good(w, s) && a.ClientRead? && Allowed(w, s, a)
    requires s.cl.phase == CONNECTED
    ensures Good(w, Do(w, s, a))
  {
    hide Stream, ParseOne, SealedReader, Lawful, Readable, Settle, Concat, EncodePlain;
    var x := Concat(a.chunks);
    var later := Beyond(s.down, x);
    assert s.down == x + later;
    Joined(s.cl.buffer, x, later);
    var c := Gather(s.cl, x);
    var n := ConnectedRead(w, c, Responses(s.sv), later, s.sv.ssid);
    var t := Do(w, s, a);
    assert t.cl == Settle(ClientCfg(w), c);
    assert Requests(t.cl) == Requests(s.cl);
  }

  lemma ClientWaits(w: World, s: Sys, a: Act)
    requires Good(w, s) && a.ClientRead? && Allowed(w, s, a) && s.cl.phase == SHAKING
    requires s.sv.state == HANDSHAKE
    ensures Good(w, Do(w, s, a))
  {
    hide Stream, SealedReader, Lawful, Readable, EncodePlain, Decode;
    var x := Concat(a.chunks);
    assert x == [];
    assert s.cl.buffer + [] == s.cl.buffer;
    NeedsMore(ClientReader(w), []);
    var t := Do(w, s, a);
    assert t.cl.trace.sent == s.cl.trace.sent;
    assert Requests(t.cl) == Requests(s.cl);
  }

  /** The first response opens the session; what follows it is read at once. */
  lemma ClientConnects(w: World, s: Sys, a: Act)
    requires Good(w, s) && a.ClientRead? && Allowed(w, s, a) && s.cl.phase == SHAKING
    requires s.sv.state != HANDSHAKE
    ensures Good(w, Do(w, s, a))
  {
    hide Stream, ParseOne, SealedReader, Lawful, Settle, Concat, EncodePlain, Readable;
    var ps, x := Responses(s.sv), Concat(a.chunks);
    var later := Beyond(s.down, x);
    assert s.down == x + later;
    Joined(s.cl.buffer, x, later);
    var c := Gather(s.cl, x);
    var t := Do(w, s, a);
    assert t.cl == Settle(ClientCfg(w), c);
    assert Readable(ClientReader(w), ps[0]);
    if |c.buffer| < |ps[0].bytes| {
      CutBeforeFirst(ClientReader(w), ps, c.buffer, later);
      SettleNothing(ClientCfg(w), c);
      assert Requests(t.cl) == Requests(s.cl);
    } else {
      CutAfterFirst(ps, c.buffer, later);
      var tail := c.buffer[|ps[0].bytes|..];
      ReadableFirst(ClientReader(w), ps[0], tail);
      SettleOpens(ClientCfg(w), c, ps[0].frame, |ps[0].bytes|);
      var c1 := c.(buffer := tail, phase := CONNECTED, ssid := ps[0].frame.ssid);
      assert Payloads(ps[1..1]) == [];
      var n := ConnectedRead(w, c1, ps, later, s.sv.ssid);
      assert Requests(t.cl) == Requests(s.cl);
    }
  }

  lemma SettleNothing(g: Settings, c: Client)
    requires ParseOne(SessionReaderOf(g, c), c.buffer) == Need
    ensures Settle(g, c) == c
  {
    hide ParseOne, SealedReader;
  }

  lemma SettleOpens(g: Settings, c: Client, f: Frame, size: nat)
    requires c.phase == SHAKING && ParseOne(SessionReaderOf(g, c), c.buffer) == Got(f, size) && f.data == SECURED
    ensures Settle(g, c) == Settle(g, c.(buffer := c.buffer[size..], phase := CONNECTED, ssid := f.ssid))
  {
    hide ParseOne, SealedReader, DeliverAll;
  }

  // -------- runs --------

  lemma StepGood(w: World, s: Sys, a: Act)
    requires Good(w, s) && Allowed(w, s, a)
    ensures Good(w, Do(w, s, a))
  {
    hide Do, Stream, ParseOne, SealedReader, Lawful, Readable, EncodePlain;
    match a
    case ClientAsk(_, _) => ClientAskGood(w, s, a);
    case ClientPop(_) => ClientPopGood(w, s, a);
    case ServerSend(_, _) => ServerSendGood(w, s, a);
    case ServerRead(_, _, _, _) =>
      if s.sv.state == HANDSHAKE {
        ServerTakesHandshake(w, s, a);
      } else {
        ServerReadsOn(w, s, a);
      }
    case ClientRead(_) =>
      if s.cl.phase == CONNECTED {
        ClientReadsOn(w, s, a);
      } else if s.sv.state == HANDSHAKE {
        ClientWaits(w, s, a);
      } else {
        ClientConnects(w, s, a);
      }
  }

  function Play(w: World, s: Sys, acts: seq<Act>): Sys
    decreases |acts|
  {
    if acts == [] then s else Play(w, Do(w, s, acts[0]), acts[1..])
  }

  ghost predicate AllAllowed(w: World, s: Sys, acts: seq<Act>)
    decreases |acts|
  {
    acts == [] || (Allowed(w, s, acts[0]) && AllAllowed(w, Do(w, s, acts[0]), acts[1..]))
  }

  lemma {:induction false} PlayGood(w: World, s: Sys, acts: seq<Act>)
    requires Good(w, s) && AllAllowed(w, s, acts)
    ensures Good(w, Play(w, s, acts))
    decreases |acts|
  {
    hide Good, Do, Allowed;
    if acts != [] {
      StepGood(w, s, acts[0]);
      PlayGood(w, Do(w, s, acts[0]), acts[1..]);
    }
  }

  lemma InitGood(w: World, fd: int)
    requires GoodWorld(w) && fd != -1
    ensures Good(w, Init(w, fd))
  {
    hide Lawful, EncodePlain, ParseOne;
    var s := Init(w, fd);
    assert Requests(s.cl) == [];
    var f := HandshakeFrame(w);
    var bytes := EncodePlain(f, 0);
    assert bytes[..|bytes|] == bytes;
    assert [] + bytes == bytes;
  }

  /** End to end: after any interleaving and any cutting of the streams, the
      server has dispatched a prefix of the requests the client sent, in order
      and each once, and all of them once the stream is drained; it has closed
      only at a request built under another session id, and once the stream is
      drained it has closed iff one was sent. Likewise the client has
      delivered a prefix of the server's post-handshake frames, and all of them
      once drained; CONNECTED means both ends hold the same key and session, and
      a drained stream means the handshake step it carries is over. */
  lemma EndToEnd(w: World, fd: int, acts: seq<Act>)
    requires GoodWorld(w) && fd != -1 && AllAllowed(w, Init(w, fd), acts)
    ensures var s := Play(w, Init(w, fd), acts);
            var requests, responses := Payloads(Requests(s.cl)), Payloads(Responses(s.sv));
            && s.sv.log.dispatched <= requests
            && (s.sv.state == ACTIVE && s.up == [] ==> s.sv.log.dispatched == requests)
            && (s.sv.state == CLOSED ==>
                  && |s.sv.log.dispatched| < |requests|
                  && requests[|s.sv.log.dispatched|].ssid != s.sv.ssid)
            && (s.cl.phase == CONNECTED ==>
                  && s.sv.aesKey == s.cl.aesKey && s.sv.ssid == s.cl.ssid
                  && 1 <= |responses| && s.cl.trace.delivered <= responses[1..]
                  && (s.down == [] ==> s.cl.trace.delivered == responses[1..]))
            && Ordered(s.sv.ssid, 0, s.sv.log.dispatched)
            && (s.up == [] ==>
                  s.sv.state != HANDSHAKE && (s.sv.state == CLOSED <==> !OfSession(Requests(s.cl), s.sv.ssid)))
            && (s.sv.state != HANDSHAKE && s.down == [] ==> s.cl.phase == CONNECTED)
            && s.cl.phase != SHUT && !s.cl.aborted && !s.sv.crashed
  {
    hide Play, Init, AllAllowed, Stream, ParseOne, SealedReader, Lawful, Readable, EncodePlain, ServerLaws.Inv;
    InitGood(w, fd);
    NewConnInv(ServerCfg(w), fd);
    InitServer(w, fd);
    PlayGood(w, Init(w, fd), acts);
    PlayKeepsServerInv(w, Init(w, fd), acts);
    var s := Play(w, Init(w, fd), acts);
    Conclusions(w, s);
    SessionOfDispatched(w, s);
  }

  lemma InitServer(w: World, fd: int)
    ensures Init(w, fd).sv == NewConn(fd)
  {
  }

  lemma StepKeepsServerInv(w: World, s: Sys, a: Act)
    requires ServerLaws.Inv(ServerCfg(w), s.sv) && !s.sv.crashed
    ensures ServerLaws.Inv(ServerCfg(w), Do(w, s, a).sv)
  {
    hide ReadFd, Send, ServerLaws.Inv, Next, Concat;
    match a
    case ServerRead(_, _, _, _) => StepKeepsInv(ServerCfg(w), s.sv, Read(ServerInput(a)));
    case ServerSend(f, att) => StepKeepsInv(ServerCfg(w), s.sv, SendOp(f, [att]));
    case _ =>
  }

  /** The server end of a session is a server connection like any other. */
  lemma {:induction false} PlayKeepsServerInv(w: World, s: Sys, acts: seq<Act>)
    requires Good(w, s) && AllAllowed(w, s, acts) && ServerLaws.Inv(ServerCfg(w), s.sv)
    ensures ServerLaws.Inv(ServerCfg(w), Play(w, s, acts).sv)
    decreases |acts|
  {
    hide Do, Allowed, ServerLaws.Inv, Opening, UpStream, DownStream, ClientOk, GoodWorld;
    if acts != [] {
      StepGood(w, s, acts[0]);
      StepKeepsServerInv(w, s, acts[0]);
      PlayKeepsServerInv(w, Do(w, s, acts[0]), acts[1..]);
    }
  }

  /** What is dispatched is of the session; so a server that has read everything
      is ACTIVE only if everything sent was. */
  lemma SessionOfDispatched(w: World, s: Sys)
    requires Good(w, s) && ServerLaws.Inv(ServerCfg(w), s.sv)
    ensures Ordered(s.sv.ssid, 0, s.sv.log.dispatched)
    ensures s.up == [] ==> (s.sv.state == CLOSED <==> !OfSession(Requests(s.cl), s.sv.ssid))
  {
    hide Stream, ParseOne, SealedReader, Lawful, Readable, EncodePlain, Requests, Reference, InStep;
    Conclusions(w, s);
    if s.up == [] && s.sv.state == ACTIVE {
      var ps := Requests(s.cl);
      assert s.sv.log.dispatched == Payloads(ps);
      forall i | 0 <= i < |ps|
        ensures ps[i].frame.ssid == s.sv.ssid
      {
        assert Payloads(ps)[i] == s.sv.log.dispatched[i];
      }
    }
  }

  lemma Conclusions(w: World, s: Sys)
    requires Good(w, s)
    ensures var requests, responses := Payloads(Requests(s.cl)), Payloads(Responses(s.sv));
            && s.sv.log.dispatched <= requests
            && (s.sv.state == ACTIVE && s.up == [] ==> s.sv.log.dispatched == requests)
            && (s.cl.phase == CONNECTED ==>
                  && 1 <= |responses| && s.cl.trace.delivered <= responses[1..]
                  && (s.down == [] ==> s.cl.trace.delivered == responses[1..]))
            && (s.up == [] ==> s.sv.state != HANDSHAKE)
            && (s.sv.state != HANDSHAKE && s.down == [] ==> s.cl.phase == CONNECTED)
  {
    hide ParseOne, SealedReader, Lawful, Readable, EncodePlain, Stream, DownStream, UpStream;
    if !Opening(w, s) {
      UpConclusion(w, s);
      if s.cl.phase == CONNECTED {
        DownConclusion(w, s);
      } else if s.down == [] {
        ReplyIsRead(w, s);
      }
    }
  }

  /** The server's first frame cannot have been read without connecting. */
  lemma ReplyIsRead(w: World, s: Sys)
    requires DownStream(w, s) && s.down == []
    ensures s.cl.phase != SHAKING
  {
    hide ParseOne, SealedReader, Readable, Stream;
    if s.cl.phase == SHAKING {
      var ps := Responses(s.sv);
      assert s.cl.buffer + [] == s.cl.buffer && ps[0..] == ps;
      Drained(ClientReader(w), ps, 0, s.cl.buffer);
    }
  }

  lemma UpConclusion(w: World, s: Sys)
    requires UpStream(w, s) && AllReadable(ServerReader(w), Requests(s.cl))
    ensures s.sv.state != HANDSHAKE
    ensures s.sv.log.dispatched <= Payloads(Requests(s.cl))
    ensures s.sv.state == ACTIVE && s.up == [] ==> s.sv.log.dispatched == Payloads(Requests(s.cl))
  {
    hide ParseOne, SealedReader, Readable, Stream;
    var ps, k := Requests(s.cl), |s.sv.log.dispatched|;
    if s.sv.state == ACTIVE && s.up == [] {
      assert s.sv.inBuf + [] == s.sv.inBuf;
      Drained(ServerReader(w), ps, k, s.sv.inBuf);
      assert ps[..k] == ps;
    }
  }

  lemma DownConclusion(w: World, s: Sys)
    requires DownStream(w, s) && s.cl.phase == CONNECTED
    ensures var responses := Payloads(Responses(s.sv));
            && 1 <= |responses| && s.cl.trace.delivered <= responses[1..]
            && (s.down == [] ==> s.cl.trace.delivered == responses[1..])
  {
    hide ParseOne, SealedReader, Readable, Stream;
    var qs, j := Responses(s.sv), |s.cl.trace.delivered|;
    assert Payloads(qs)[1..j + 1] == Payloads(qs[1..j + 1]);
    if s.down == [] {
      assert s.cl.buffer + [] == s.cl.buffer;
      Drained(ClientReader(w), qs, j + 1, s.cl.buffer);
    }
  }

  /** A buffer waiting for more, with nothing in flight, is at a frame boundary
      with no frame left. */
  lemma Drained(r: Reader, ps: seq<Packet>, k: nat, b: Bytes)
    requires k <= |ps| && AllReadable(r, ps) && b == Stream(ps[k..]) && ParseOne(r, b) == Need
    ensures k == |ps|
  {
    hide ParseOne;
    if k < |ps| {
      assert Readable(r, ps[k]);
      ReadableFirst(r, ps[k], Stream(ps[k..][1..]));
    }
  }

  // -------- requests built after CONNECTED --------

  /** The application waits for CONNECTED before it asks for anything. */
  ghost predicate Patient(w: World, s: Sys, acts: seq<Act>)
    decreases |acts|
  {
    || acts == []
    || (&& (acts[0].ClientAsk? ==> s.cl.phase == CONNECTED)
        && Patient(w, Do(w, s, acts[0]), acts[1..]))
  }

  /** Everything queued or sent carries the client's session id. */
  ghost predicate InSession(s: Sys) {
    && (s.cl.phase == SHAKING ==> s.cl.queue == [] && Requests(s.cl) == [])
    && OfSession(Requests(s.cl), s.cl.ssid)
    && (forall i :: 0 <= i < |s.cl.queue| ==>
          s.cl.queue[i].SendCmd? && s.cl.queue[i].frame.Some? && s.cl.queue[i].frame.value.ssid == s.cl.ssid)
  }

  lemma {:induction false} ParseSession(g: Settings, c: Client)
    ensures var t := ParseBuffer(g, c).client;
            && t.queue == c.queue && t.trace.sent == c.trace.sent && t.rid == c.rid
            && (c.phase != SHAKING ==> t.phase != SHAKING && t.ssid == c.ssid)
            && (t.phase == SHAKING ==> c.phase == SHAKING)
    decreases |c.buffer|
  {
    hide ParseOne, SealedReader;
    var one := ParseOne(SessionReaderOf(g, c), c.buffer);
    if one.Got? {
      var c1 := c.(buffer := c.buffer[one.size..]);
      ParseSession(g, c1);
      ParseSession(g, c1.(phase := CONNECTED, ssid := one.frame.ssid));
    }
  }

  lemma ReadSession(w: World, s: Sys, a: Act)
    requires a.ClientRead?
    ensures Do(w, s, a).cl.queue == s.cl.queue && Do(w, s, a).cl.trace.sent == s.cl.trace.sent
    ensures Do(w, s, a).cl.rid == s.cl.rid
    ensures InSession(s) ==> InSession(Do(w, s, a))
  {
    hide ParseBuffer, DeliverAll, Accepted, Requests;
    var g, c := ClientCfg(w), Gather(s.cl, Concat(a.chunks));
    ParseSession(g, c);
    DeliverAllIs(g, ParseBuffer(g, c).client, ParseBuffer(g, c).frames);
    SameRequests(s.cl, Do(w, s, a).cl);
  }

  lemma StepInSession(w: World, s: Sys, a: Act)
    requires Good(w, s) && Allowed(w, s, a) && InSession(s)
    requires a.ClientAsk? ==> s.cl.phase == CONNECTED
    ensures InSession(Do(w, s, a))
  {
    hide Stream, ParseOne, SealedReader, Lawful, Readable, EncodePlain, HandleCommand, ReadFd, Send, Settle, Requests;
    match a
    case ClientAsk(_, _) => SameRequests(s.cl, Do(w, s, a).cl);
    case ClientPop(iv) =>
      if s.cl.queue != [] {
        var p := PopSucceeds(w, s.cl, iv);
        RequestsGrow(s.cl, p);
      }
    case ClientRead(_) => ReadSession(w, s, a);
    case _ => SameRequests(s.cl, Do(w, s, a).cl);
  }

  lemma {:induction false} PlayInSession(w: World, s: Sys, acts: seq<Act>)
    requires Good(w, s) && AllAllowed(w, s, acts) && Patient(w, s, acts) && InSession(s)
    ensures Good(w, Play(w, s, acts)) && InSession(Play(w, s, acts))
    decreases |acts|
  {
    hide Good, Do, Allowed, InSession;
    if acts != [] {
      StepGood(w, s, acts[0]);
      StepInSession(w, s, acts[0]);
      PlayInSession(w, Do(w, s, acts[0]), acts[1..]);
    }
  }

  // -------- what was asked for --------

  /** A request as the application knows it, and the rid it goes under. */
  datatype Made = Made(path: Bytes, data: Bytes, rid: U32)

  /** The calls of send in a run, in order, numbered on from `last`. */
  function Asked(acts: seq<Act>, last: U32): seq<Made>
    decreases |acts|
  {
    if acts == [] then []
    else if acts[0].ClientAsk? then
      [Made(acts[0].path, acts[0].data, (last + 1) % TWO32)] + Asked(acts[1..], (last + 1) % TWO32)
    else Asked(acts[1..], last)
  }

  lemma {:induction false} AskedNumbers(acts: seq<Act>, last: U32)
    ensures forall k :: 0 <= k < |Asked(acts, last)| ==> Asked(acts, last)[k].rid == (last + 1 + k) % TWO32
    decreases |acts|
  {
    if acts != [] {
      var next := if acts[0].ClientAsk? then (last + 1) % TWO32 else last;
      AskedNumbers(acts[1..], next);
      if acts[0].ClientAsk? {
        forall k | 0 < k < |Asked(acts, last)|
          ensures Asked(acts, last)[k].rid == (last + 1 + k) % TWO32
        {
          assert Asked(acts, last)[k] == Asked(acts[1..], next)[k - 1];
          WrapsOn(last, k);
        }
      }
    }
  }

  lemma WrapsOn(last: U32, k: nat)
    ensures ((last + 1) % TWO32 + k) % TWO32 == (last + 1 + k) % TWO32
  {
  }

  /** As long as there are fewer than 2^32, no two requests have the same rid. */
  lemma AskedApart(acts: seq<Act>, last: U32)
    requires |Asked(acts, last)| <= TWO32
    ensures forall j, k :: 0 <= j < k < |Asked(acts, last)| ==> Asked(acts, last)[j].rid != Asked(acts, last)[k].rid
  {
    AskedNumbers(acts, last);
    forall j, k | 0 <= j < k < |Asked(acts, last)|
      ensures Asked(acts, last)[j].rid != Asked(acts, last)[k].rid
    {
      Apart(last + 1, j, k);
    }
  }

  lemma Apart(from: nat, j: nat, k: nat)
    requires j < k < j + TWO32
    ensures (from + j) % TWO32 != (from + k) % TWO32
  {
    var d := (from + k) / TWO32 - (from + j) / TWO32;
    assert k - j == TWO32 * d + ((from + k) % TWO32 - (from + j) % TWO32);
  }

  function Mades(fs: seq<Frame>): (ws: seq<Made>)
    ensures |ws| == |fs| && forall i :: 0 <= i < |fs| ==> ws[i] == Made(fs[i].path, fs[i].data, fs[i].rid)
  {
    seq(|fs|, i requires 0 <= i < |fs| => Made(fs[i].path, fs[i].data, fs[i].rid))
  }

  function MadeOf(cmd: Command): Made {
    if cmd.SendCmd? && cmd.frame.Some?
    then Made(cmd.frame.value.path, cmd.frame.value.data, cmd.frame.value.rid) else Made([], [], 0)
  }

  function Queued(cmds: seq<Command>): (ws: seq<Made>)
    ensures |ws| == |cmds| && forall i :: 0 <= i < |cmds| ==> ws[i] == MadeOf(cmds[i])
  {
    seq(|cmds|, i requires 0 <= i < |cmds| => MadeOf(cmds[i]))
  }

  /** What the client has sent and what it has still queued. */
  function Taken(cl: Client): seq<Made> {
    Mades(Payloads(Requests(cl))) + Queued(cl.queue)
  }

  /** A request popped in HANDSHAKE, which the client drops. */
  predicate DropsOne(s: Sys, a: Act) {
    a.ClientPop? && s.cl.phase == SHAKING && s.cl.queue != []
  }

  /** The requests a run drops, in order. */
  function Dropped(w: World, s: Sys, acts: seq<Act>): seq<Made>
    decreases |acts|
  {
    if acts == [] then []
    else (if DropsOne(s, acts[0]) then [MadeOf(s.cl.queue[0])] else []) + Dropped(w, Do(w, s, acts[0]), acts[1..])
  }

  lemma {:induction false} DroppedIff(w: World, s: Sys, acts: seq<Act>)
    ensures Dropped(w, s, acts) == [] <==>
              forall k :: 0 <= k < |acts| ==> !DropsOne(Play(w, s, acts[..k]), acts[k])
    decreases |acts|
  {
    hide Do, DropsOne;
    if acts != [] {
      var t, rest := Do(w, s, acts[0]), acts[1..];
      DroppedIff(w, t, rest);
      assert acts[..0] == [] && Play(w, s, []) == s;
      forall k | 0 <= k < |rest|
        ensures Play(w, s, acts[..k + 1]) == Play(w, t, rest[..k]) && acts[k + 1] == rest[k]
      {
        assert acts[..k + 1][1..] == rest[..k];
      }
      if Dropped(w, s, acts) == [] {
        forall k | 0 <= k < |acts|
          ensures !DropsOne(Play(w, s, acts[..k]), acts[k])
        {
          if k > 0 {
            assert !DropsOne(Play(w, t, rest[..k - 1]), rest[k - 1]);
          }
        }
      }
    }
  }

  lemma PopDrops(w: World, s: Sys, iv: Bytes)
    requires Good(w, s) && DropsOne(s, ClientPop(iv))
    ensures [MadeOf(s.cl.queue[0])] + Taken(Do(w, s, ClientPop(iv)).cl) == Taken(s.cl)
    ensures Do(w, s, ClientPop(iv)).cl.rid == s.cl.rid
  {
    hide Stream, ParseOne, SealedReader, Lawful, Readable, EncodePlain, Encode, UpStream, DownStream;
    hide Requests, Taken, Queued, MadeOf;
    var t := Do(w, s, ClientPop(iv));
    assert t.cl == s.cl.(queue := s.cl.queue[1..]);
    SameRequests(s.cl, t.cl);
    OnlyQueued(s.cl);
    OnlyQueued(t.cl);
    QueuedFirst(s.cl.queue);
  }

  lemma OnlyQueued(c: Client)
    requires Requests(c) == []
    ensures Taken(c) == Queued(c.queue)
  {
    assert Mades(Payloads([])) == [];
  }

  lemma PopTakes(w: World, s: Sys, iv: Bytes)
    requires Good(w, s) && Allowed(w, s, ClientPop(iv)) && s.cl.phase != SHAKING && s.cl.queue != []
    ensures Taken(Do(w, s, ClientPop(iv)).cl) == Taken(s.cl) && Do(w, s, ClientPop(iv)).cl.rid == s.cl.rid
  {
    hide Stream, ParseOne, SealedReader, Lawful, Readable, EncodePlain, Next, Requests, UpStream, DownStream, Payloads;
    var t := Do(w, s, ClientPop(iv));
    var p := PopSucceeds(w, s.cl, iv);
    RequestsGrow(s.cl, p);
    var sent, first, later := Mades(Payloads(Requests(s.cl))), [MadeOf(s.cl.queue[0])], Queued(s.cl.queue[1..]);
    MadesAppend(Requests(s.cl), p);
    QueuedFirst(s.cl.queue);
    hide Mades, Queued;
    Joined(sent, first, later);
  }

  lemma MadesAppend(ps: seq<Packet>, p: Packet)
    ensures Mades(Payloads(ps + [p])) == Mades(Payloads(ps)) + [Made(p.frame.path, p.frame.data, p.frame.rid)]
  {
    assert Payloads(ps + [p]) == Payloads(ps) + [p.frame];
  }

  lemma QueuedFirst(queue: seq<Command>)
    requires queue != []
    ensures Queued(queue) == [MadeOf(queue[0])] + Queued(queue[1..])
  {
  }

  lemma AskTakes(w: World, s: Sys, path: Bytes, data: Bytes)
    requires Good(w, s)
    ensures var t := Do(w, s, ClientAsk(path, data));
            && t.cl.rid == (s.cl.rid + 1) % TWO32
            && Taken(t.cl) == Taken(s.cl) + [Made(path, data, t.cl.rid)]
  {
    hide Stream, ParseOne, SealedReader, Lawful, Readable, EncodePlain, Requests, UpStream, DownStream;
    var t := Do(w, s, ClientAsk(path, data));
    SameRequests(s.cl, t.cl);
    assert Queued(t.cl.queue) == Queued(s.cl.queue) + [Made(path, data, t.cl.rid)];
  }

  lemma SameTaken(c: Client, d: Client)
    requires d.trace.sent == c.trace.sent && d.queue == c.queue
    ensures Taken(d) == Taken(c)
  {
    SameRequests(c, d);
  }

  lemma StepTakes(w: World, s: Sys, a: Act)
    requires Good(w, s) && Allowed(w, s, a)
    ensures Dropped(w, s, [a]) + Taken(Do(w, s, a).cl) == Taken(s.cl) + Asked([a], s.cl.rid)
    ensures Do(w, s, a).cl.rid == if a.ClientAsk? then (s.cl.rid + 1) % TWO32 else s.cl.rid
  {
    hide Stream, ParseOne, SealedReader, Lawful, Readable, EncodePlain, HandleCommand, ReadFd, Send, Settle;
    hide Good, Allowed, Taken, Requests, MadeOf;
    var t := Do(w, s, a);
    assert [a][1..] == [] && Dropped(w, t, []) == [];
    assert Taken(s.cl) + [] == Taken(s.cl) && [] + Taken(t.cl) == Taken(t.cl);
    match a
    case ClientAsk(path, data) => AskTakes(w, s, path, data);
    case ClientPop(iv) =>
      if DropsOne(s, a) {
        PopDrops(w, s, iv);
      } else if s.cl.queue != [] {
        PopTakes(w, s, iv);
      }
    case ClientRead(_) =>
      ReadSession(w, s, a);
      SameTaken(s.cl, t.cl);
    case _ =>
  }

  lemma DroppedFirst(w: World, s: Sys, acts: seq<Act>)
    requires acts != []
    ensures Dropped(w, s, acts) == Dropped(w, s, [acts[0]]) + Dropped(w, Do(w, s, acts[0]), acts[1..])
  {
    hide Do, DropsOne;
    assert [acts[0]][1..] == [] && Dropped(w, Do(w, s, acts[0]), []) == [];
  }

  lemma AskedFirst(acts: seq<Act>, last: U32)
    requires acts != []
    ensures Asked(acts, last)
         == Asked([acts[0]], last) + Asked(acts[1..], if acts[0].ClientAsk? then (last + 1) % TWO32 else last)
  {
    assert [acts[0]][1..] == [];
    assert [] + Asked(acts[1..], last) == Asked(acts[1..], last);
  }

  lemma NothingAsked(w: World, s: Sys)
    ensures Asked([], s.cl.rid) == [] && Dropped(w, s, []) == []
  {
  }

  /** Every request asked for is dropped, sent or still queued, in that order. */
  lemma {:induction false} PlayTakes(w: World, s: Sys, acts: seq<Act>)
    requires Good(w, s) && AllAllowed(w, s, acts)
    ensures Dropped(w, s, acts) + Taken(Play(w, s, acts).cl) == Taken(s.cl) + Asked(acts, s.cl.rid)
    decreases |acts|
  {
    hide Good, Do, Allowed, Taken, Asked, Dropped;
    if acts == [] {
      NothingAsked(w, s);
      assert Taken(s.cl) + [] == Taken(s.cl) && [] + Taken(s.cl) == Taken(s.cl);
    } else {
      var a, t := acts[0], Do(w, s, acts[0]);
      StepGood(w, s, a);
      StepTakes(w, s, a);
      PlayTakes(w, t, acts[1..]);
      AskedFirst(acts, s.cl.rid);
      DroppedFirst(w, s, acts);
      Joined(Taken(s.cl), Asked([a], s.cl.rid), Asked(acts[1..], t.cl.rid));
      Joined(Dropped(w, s, [a]), Dropped(w, t, acts[1..]), Taken(Play(w, s, acts).cl));
      Joined(Dropped(w, s, [a]), Taken(t.cl), Asked(acts[1..], t.cl.rid));
    }
  }

  /** Over every run of a session: what send() was called with, numbered 2, 3, 4, ...
      (the handshake was 1), is what was dropped, then what was sent, then what is
      queued; so fewer than 2^32 requests all have different rids. Nothing is dropped iff no request
      was popped before CONNECTED, although every call returned true. */
  lemma EveryRequestIsAccountedFor(w: World, fd: int, acts: seq<Act>)
    requires GoodWorld(w) && fd != -1 && AllAllowed(w, Init(w, fd), acts)
    ensures var s0 := Init(w, fd);
            var s := Play(w, s0, acts);
            && Asked(acts, 1) == Dropped(w, s0, acts) + (Mades(Payloads(Requests(s.cl))) + Queued(s.cl.queue))
            && (forall k :: 0 <= k < |Asked(acts, 1)| ==> Asked(acts, 1)[k].rid == (k + 2) % TWO32)
            && (|Asked(acts, 1)| <= TWO32 ==>
                  forall j, k :: 0 <= j < k < |Asked(acts, 1)| ==> Asked(acts, 1)[j].rid != Asked(acts, 1)[k].rid)
            && (Dropped(w, s0, acts) == [] <==>
                  forall k :: 0 <= k < |acts| ==> !DropsOne(Play(w, s0, acts[..k]), acts[k]))
  {
    hide Play, AllAllowed, Asked, Dropped, DropsOne, Good, GoodWorld, Init, Requests, InSession;
    var s0 := Init(w, fd);
    InitGood(w, fd);
    InitTakesNothing(w, fd);
    PlayTakes(w, s0, acts);
    DroppedIff(w, s0, acts);
    FromNothing(Taken(s0.cl), Asked(acts, 1));
    NumberedFromTwo(acts);
    hide Mades, Queued, Payloads;
  }

  lemma NumberedFromTwo(acts: seq<Act>)
    ensures forall k :: 0 <= k < |Asked(acts, 1)| ==> Asked(acts, 1)[k].rid == (k + 2) % TWO32
    ensures |Asked(acts, 1)| <= TWO32 ==>
              forall j, k :: 0 <= j < k < |Asked(acts, 1)| ==> Asked(acts, 1)[j].rid != Asked(acts, 1)[k].rid
  {
    AskedNumbers(acts, 1);
    if |Asked(acts, 1)| <= TWO32 {
      AskedApart(acts, 1);
    }
  }

  lemma FromNothing<T>(a: seq<T>, b: seq<T>)
    requires a == []
    ensures a + b == b
  {
  }

  lemma {:induction false} PatientDropsNothing(w: World, s: Sys, acts: seq<Act>)
    requires Good(w, s) && AllAllowed(w, s, acts) && Patient(w, s, acts) && InSession(s)
    ensures Dropped(w, s, acts) == []
    decreases |acts|
  {
    hide Good, Do, Allowed;
    if acts != [] {
      StepGood(w, s, acts[0]);
      StepInSession(w, s, acts[0]);
      PatientDropsNothing(w, Do(w, s, acts[0]), acts[1..]);
    }
  }

  /** If every request is built after CONNECTED, the server never closes, what was
      asked for is what was sent followed by what is queued, and the server has
      dispatched a prefix of it: all of it once nothing is queued or in flight. */
  lemma PatientClientIsNeverRefused(w: World, fd: int, acts: seq<Act>)
    requires GoodWorld(w) && fd != -1 && AllAllowed(w, Init(w, fd), acts) && Patient(w, Init(w, fd), acts)
    ensures var s := Play(w, Init(w, fd), acts);
            && s.sv.state != CLOSED
            && (s.cl.phase == CONNECTED && s.up == [] ==> s.sv.log.dispatched == Payloads(Requests(s.cl)))
            && Asked(acts, 1) == Mades(Payloads(Requests(s.cl))) + Queued(s.cl.queue)
            && Mades(s.sv.log.dispatched) <= Asked(acts, 1)
            && (s.up == [] && s.cl.queue == [] ==> Mades(s.sv.log.dispatched) == Asked(acts, 1))
  {
    hide Play, AllAllowed, Patient, Stream, ParseOne, SealedReader, Lawful, Readable, EncodePlain, Asked;
    InitGood(w, fd);
    InitTakesNothing(w, fd);
    var s0 := Init(w, fd);
    hide Init, Requests;
    PlayInSession(w, s0, acts);
    PlayTakes(w, s0, acts);
    PatientDropsNothing(w, s0, acts);
    var s := Play(w, s0, acts);
    assert [] + Asked(acts, 1) == Asked(acts, 1) && [] + Taken(s.cl) == Taken(s.cl);
    Conclusions(w, s);
    PrefixMade(s.sv.log.dispatched, Payloads(Requests(s.cl)), Queued(s.cl.queue));
  }

  lemma InitTakesNothing(w: World, fd: int)
    ensures InSession(Init(w, fd)) && Taken(Init(w, fd).cl) == [] && Init(w, fd).cl.rid == 1
  {
    hide EncodePlain;
    assert Requests(Init(w, fd).cl) == [];
  }

  lemma PrefixMade(a: seq<Frame>, b: seq<Frame>, more: seq<Made>)
    requires a <= b
    ensures Mades(a) <= Mades(b) + more
    ensures more == [] ==> Mades(b) + more == Mades(b)
  {
  }

  // -------- every run can be finished --------

  const WHOLE: Attempt := Attempt(Some(seq(IV_SIZE, _ => 0)), [EVERYTHING])

  lemma WholeCompletes(n: nat)
    requires n < EVERYTHING
    ensures Completes(WHOLE, n)
  {
    assert Pushed(0, []) == 0;
  }

  /** The server reading all that is in flight to it. */
  lemma ServerReadsAll(w: World, s: Sys)
    requires Good(w, s) && s.sv.state != CLOSED && s.sv.fid < TWO32 - 1
    ensures var a := ServerRead([s.up], w.sentAt, 0, WHOLE);
            var t := Do(w, s, a);
            && Allowed(w, s, a) && Good(w, t) && t.cl == s.cl && t.up == []
            && t.sv.state != HANDSHAKE && t.sv.fid <= s.sv.fid + 1
  {
    hide Stream, ParseOne, SealedReader, Lawful, Readable, EncodePlain, ReadFd, UpStream, DownStream;
    var a := ServerRead([s.up], w.sentAt, 0, WHOLE);
    WholeCompletes(57);
    WholeCompletes(75);
    assert Concat([s.up]) == s.up;
    if s.sv.state == HANDSHAKE {
      ServerTakesHandshake(w, s, a);
    } else {
      ServerReadsOn(w, s, a);
    }
    Conclusions(w, Do(w, s, a));
  }

  /** The client reading all that is in flight to it. */
  lemma ClientFollows(w: World, s: Sys)
    requires Good(w, s) && s.sv.state != HANDSHAKE
    ensures var a := ClientRead([s.down]);
            var t := Do(w, s, a);
            && Allowed(w, s, a) && Good(w, t) && t.sv == s.sv && t.up == s.up && t.down == []
            && t.cl.phase == CONNECTED && t.cl.queue == s.cl.queue && t.cl.trace.sent == s.cl.trace.sent
            && Requests(t.cl) == Requests(s.cl) && (InSession(s) ==> InSession(t))
  {
    hide Stream, ParseOne, SealedReader, Lawful, Readable, EncodePlain, Settle, UpStream, DownStream, Requests,
      InSession;
    var a := ClientRead([s.down]);
    assert Concat([s.down]) == s.down;
    StepGood(w, s, a);
    ReadSession(w, s, a);
    SameRequests(s.cl, Do(w, s, a).cl);
    Conclusions(w, Do(w, s, a));
  }

  lemma SameClientInSession(s: Sys, t: Sys)
    requires t.cl == s.cl
    ensures InSession(s) ==> InSession(t)
  {
  }

  /** From every state a run can reach before the server closes, reading what is in
      flight is allowed and leaves nothing in flight and both ends past the
      handshake. */
  lemma CanFinish(w: World, s: Sys) returns (acts: seq<Act>)
    requires Good(w, s) && s.sv.state != CLOSED && s.sv.fid < TWO32 - 1
    ensures AllAllowed(w, s, acts) && (forall i :: 0 <= i < |acts| ==> acts[i].ServerRead? || acts[i].ClientRead?)
    ensures var t := Play(w, s, acts);
            && Good(w, t) && (InSession(s) ==> InSession(t))
            && t.cl.queue == s.cl.queue && t.cl.trace.sent == s.cl.trace.sent
            && t.sv.fid <= s.sv.fid + 1 && t.up == [] && t.down == []
            && t.sv.state != HANDSHAKE && t.cl.phase == CONNECTED
  {
    hide Good, InSession, Requests, Do, Allowed;
    var a := ServerRead([s.up], w.sentAt, 0, WHOLE);
    ServerReadsAll(w, s);
    var u := Do(w, s, a);
    SameClientInSession(s, u);
    ClientFollows(w, u);
    acts := [a, ClientRead([u.down])];
    TwoSteps(w, s, a, ClientRead([u.down]));
  }

  /** Reading all requests in flight of an open session. */
  lemma ReadFinishes(w: World, s: Sys)
    requires Good(w, s) && InSession(s) && s.cl.phase == CONNECTED && s.sv.state == ACTIVE && s.sv.fid < TWO32 - 1
    ensures var a := ServerRead([s.up], w.sentAt, 0, WHOLE);
            var t := Do(w, s, a);
            && Allowed(w, s, a) && Good(w, t) && InSession(t) && t.cl == s.cl && t.up == []
            && t.sv.state == ACTIVE && t.sv.fid == s.sv.fid && t.sv.log.dispatched == Payloads(Requests(s.cl))
  {
    hide Stream, ParseOne, SealedReader, Lawful, Readable, EncodePlain, ReadFd, Requests;
    var a := ServerRead([s.up], w.sentAt, 0, WHOLE);
    WholeCompletes(57);
    WholeCompletes(75);
    assert Concat([s.up]) == s.up;
    StepGood(w, s, a);
    StepInSession(w, s, a);
    var t := Do(w, s, a);
    Conclusions(w, t);
    assert t.sv.state == ACTIVE && !t.sv.crashed;
    var d, n, refused := ServerReadIs(w, s, a);
    if refused {
      CloseQuiet(ServerCfg(w), d, INVALID_REQUEST, true, [WHOLE]);
    }
  }

  /** Asking and popping in an open session with nothing queued. */
  lemma AskAndPop(w: World, s: Sys, path: Bytes, data: Bytes, iv: Bytes)
    requires Good(w, s) && InSession(s) && s.cl.phase == CONNECTED && s.cl.queue == [] && s.cl.fid < TWO32 - 1
    requires |path| < TWO16 && 57 + |path| + |data| <= w.serverMax && |iv| == IV_SIZE
    ensures var a, b := ClientAsk(path, data), ClientPop(iv);
            var u := Do(w, s, a);
            var v := Do(w, u, b);
            var f := Frame(s.cl.fid + 1, NextFid(s.cl.rid), s.cl.ssid, STATUS_REQ, 0, path, data);
            && Allowed(w, s, a) && Allowed(w, u, b) && Good(w, v) && InSession(v)
            && v.sv == s.sv && v.cl.phase == CONNECTED && v.cl.queue == [] && v.cl.fid == s.cl.fid + 1
            && Payloads(Requests(v.cl)) == Payloads(Requests(s.cl)) + [f]
  {
    hide Stream, ParseOne, SealedReader, Lawful, Readable, EncodePlain, HandleCommand, Requests, UpStream, DownStream;
    var a, b := ClientAsk(path, data), ClientPop(iv);
    var u := Do(w, s, a);
    StepGood(w, s, a);
    StepInSession(w, s, a);
    StepGood(w, u, b);
    StepInSession(w, u, b);
    var p := PopSucceeds(w, u.cl, iv);
    RequestsGrow(u.cl, p);
    SameRequests(s.cl, u.cl);
  }

  /** Every request that fits, asked for in an open session, gets through: pop it,
      read what is in flight, and it is the last request dispatched. */
  lemma RequestGetsThrough(w: World, s: Sys, path: Bytes, data: Bytes) returns (acts: seq<Act>)
    requires Good(w, s) && InSession(s) && s.cl.phase == CONNECTED && s.cl.queue == []
    requires s.sv.state == ACTIVE && s.sv.fid < TWO32 - 1 && s.cl.fid < TWO32 - 1
    requires |path| < TWO16 && 57 + |path| + |data| <= w.serverMax
    ensures AllAllowed(w, s, acts) && Patient(w, s, acts)
    ensures var t := Play(w, s, acts);
            var f := Frame(s.cl.fid + 1, NextFid(s.cl.rid), s.cl.ssid, STATUS_REQ, 0, path, data);
            && Good(w, t) && InSession(t) && t.cl.phase == CONNECTED && t.cl.queue == []
            && t.sv.state == ACTIVE && t.sv.fid == s.sv.fid && t.cl.fid == s.cl.fid + 1
            && t.sv.log.dispatched == Payloads(Requests(t.cl)) == Payloads(Requests(s.cl)) + [f]
  {
    hide Good, InSession, Requests, Do, Allowed;
    var a, b := ClientAsk(path, data), ClientPop(WHOLE.iv.value);
    AskAndPop(w, s, path, data, WHOLE.iv.value);
    var u := Do(w, s, a);
    var v := Do(w, u, b);
    ReadFinishes(w, v);
    var c := ServerRead([v.up], w.sentAt, 0, WHOLE);
    acts := [a, b, c];
    TwoSteps(w, u, b, c);
    assert acts[1..] == [b, c] && [b, c][1..] == [c] && [c][1..] == [];
    assert Patient(w, v, [c]);
    assert Patient(w, u, [b, c]);
  }

  lemma TwoSteps(w: World, s: Sys, a: Act, b: Act)
    ensures Play(w, s, [a, b]) == Do(w, Do(w, s, a), b)
    ensures AllAllowed(w, s, [a, b]) <==> Allowed(w, s, a) && Allowed(w, Do(w, s, a), b)
  {
    hide Do, Allowed;
    var u := Do(w, s, a);
    assert [a, b][1..] == [b] && [b][1..] == [];
    assert Play(w, u, [b]) == Do(w, u, b);
    assert AllAllowed(w, u, [b]) <==> Allowed(w, u, b);
  }

  lemma {:induction false} PlayOn(w: World, s: Sys, acts: seq<Act>, more: seq<Act>)
    ensures Play(w, s, acts + more) == Play(w, Play(w, s, acts), more)
    ensures AllAllowed(w, s, acts + more) <==> AllAllowed(w, s, acts) && AllAllowed(w, Play(w, s, acts), more)
    decreases |acts|
  {
    hide Do, Allowed;
    if acts == [] {
      assert acts + more == more;
    } else {
      assert (acts + more)[1..] == acts[1..] + more;
      PlayOn(w, Do(w, s, acts[0]), acts[1..], more);
    }
  }

  datatype Wanted = Wanted(path: Bytes, data: Bytes)

  predicate CanCarry(w: World, asked: seq<Wanted>) {
    forall i :: 0 <= i < |asked| ==> |asked[i].path| < TWO16 && 57 + |asked[i].path| + |asked[i].data| <= w.serverMax
  }

  ghost predicate Granted(fs: seq<Frame>, asked: seq<Wanted>) {
    |fs| == |asked| && forall i :: 0 <= i < |fs| ==> Wanted(fs[i].path, fs[i].data) == asked[i]
  }

  /** An open session at rest: everything sent so far was dispatched. */
  ghost predicate AtRest(w: World, s: Sys) {
    && Good(w, s) && InSession(s) && s.cl.phase == CONNECTED && s.cl.queue == []
    && s.sv.state == ACTIVE && s.sv.fid < TWO32 - 1
    && s.sv.log.dispatched == Payloads(Requests(s.cl))
  }

  lemma {:induction false} AllGetThrough(w: World, s: Sys, asked: seq<Wanted>) returns (acts: seq<Act>)
    requires AtRest(w, s) && CanCarry(w, asked) && s.cl.fid + |asked| < TWO32
    ensures AllAllowed(w, s, acts)
    ensures var before, t := s.sv.log.dispatched, Play(w, s, acts);
            && AtRest(w, t) && before <= t.sv.log.dispatched
            && Granted(t.sv.log.dispatched[|before|..], asked)
    decreases |asked|
  {
    hide Good, InSession, Requests, Do, Allowed;
    if asked == [] {
      acts := [];
    } else {
      var first := RequestGetsThrough(w, s, asked[0].path, asked[0].data);
      var t := Play(w, s, first);
      var rest := AllGetThrough(w, t, asked[1..]);
      acts := first + rest;
      PlayOn(w, s, first, rest);
    }
  }

  lemma SessionCanOpen(w: World, fd: int) returns (acts: seq<Act>)
    requires GoodWorld(w) && fd != -1
    ensures AllAllowed(w, Init(w, fd), acts)
    ensures var t := Play(w, Init(w, fd), acts);
            AtRest(w, t) && t.cl.fid == 0 && t.sv.log.dispatched == []
  {
    hide Play, AllAllowed, Lawful, EncodePlain, Stream, ParseOne, SealedReader, Readable;
    InitGood(w, fd);
    var s := Init(w, fd);
    assert InSession(s) && Requests(s.cl) == [];
    acts := CanFinish(w, s);
    var t := Play(w, s, acts);
    SameRequests(s.cl, t.cl);
    Conclusions(w, t);
  }

  /** No session is stuck: in every world, whatever list of requests fits the
      server's limit, some run opens the session and the server dispatches exactly
      that list. */
  lemma SessionCanCarry(w: World, fd: int, asked: seq<Wanted>) returns (acts: seq<Act>)
    requires GoodWorld(w) && fd != -1 && CanCarry(w, asked) && |asked| < TWO32
    ensures AllAllowed(w, Init(w, fd), acts)
    ensures var t := Play(w, Init(w, fd), acts);
            t.cl.phase == CONNECTED && t.sv.state == ACTIVE && Granted(t.sv.log.dispatched, asked)
  {
    hide Play, AllAllowed, Good, InSession, Init, GoodWorld, Requests;
    var opening := SessionCanOpen(w, fd);
    var s := Play(w, Init(w, fd), opening);
    var rest := AllGetThrough(w, s, asked);
    acts := opening + rest;
    PlayOn(w, Init(w, fd), opening, rest);
    var t := Play(w, s, rest);
    assert t.sv.log.dispatched[0..] == t.sv.log.dispatched;
  }

  // -------- a request built too early --------

  /** A request asked for before the client is connected. */
  lemma AskEarly(w: World, fd: int, path: Bytes, data: Bytes)
    requires GoodWorld(w) && fd != -1
    ensures var a := ClientAsk(path, data);
            var s := Do(w, Init(w, fd), a);
            && Allowed(w, Init(w, fd), a) && Good(w, s) && s.sv == NewConn(fd)
            && |s.cl.queue| == 1 && s.cl.queue[0].SendCmd? && s.cl.queue[0].frame.Some?
            && s.cl.queue[0].frame.value.ssid == 0
            && s.cl.queue[0].frame.value.path == path && s.cl.queue[0].frame.value.data == data
            && Requests(s.cl) == [] && s.cl.fid == 0
  {
    hide Lawful, EncodePlain, Stream, ParseOne, SealedReader, Readable;
    InitGood(w, fd);
    StepGood(w, Init(w, fd), ClientAsk(path, data));
  }

  lemma StillOpening(w: World, s: Sys)
    requires Good(w, s) && s.sv.state == HANDSHAKE
    ensures Opening(w, s)
  {
    hide Stream, ParseOne, SealedReader, Lawful, Readable, EncodePlain;
  }

  /** The server reading the whole handshake frame. */
  lemma ServerOpens(w: World, s: Sys, ssid: U64)
    requires Good(w, s) && s.sv.state == HANDSHAKE && ServerLaws.Inv(ServerCfg(w), s.sv)
    ensures var a := ServerRead([s.up], w.sentAt, ssid, WHOLE);
            var t := Do(w, s, a);
            && Allowed(w, s, a) && Good(w, t) && t.cl == s.cl && ServerLaws.Inv(ServerCfg(w), t.sv)
            && t.sv.state == ACTIVE && t.sv.ssid == ssid && t.sv.fid <= 1
            && t.sv.log.dispatched == [] && t.sv.log.closes == s.sv.log.closes
  {
    hide Stream, ParseOne, SealedReader, Lawful, Readable, EncodePlain, ReadFd, UpStream, DownStream, ServerLaws.Inv;
    var a := ServerRead([s.up], w.sentAt, ssid, WHOLE);
    WholeCompletes(57);
    WholeCompletes(75);
    assert Concat([s.up]) == s.up;
    StillOpening(w, s);
    ServerTakesHandshake(w, s, a);
    StepKeepsServerInv(w, s, a);
  }

  lemma PopEarly(w: World, s: Sys, iv: Bytes)
    requires Good(w, s) && s.cl.phase == CONNECTED && |s.cl.queue| == 1 && Requests(s.cl) == [] && |iv| == IV_SIZE
    requires s.cl.queue[0].SendCmd? && s.cl.queue[0].frame.Some? && Fits(s.cl.queue[0].frame.value, w.serverMax)
    ensures var t := Do(w, s, ClientPop(iv));
            && Allowed(w, s, ClientPop(iv)) && Good(w, t) && t.sv == s.sv
            && |Requests(t.cl)| == 1 && Requests(t.cl)[0].frame.ssid == s.cl.queue[0].frame.value.ssid
  {
    hide Stream, ParseOne, SealedReader, Lawful, Readable, EncodePlain, Next, DownStream, UpStream, Requests;
    StepGood(w, s, ClientPop(iv));
    var p := PopSucceeds(w, s.cl, iv);
    RequestsGrow(s.cl, p);
  }

  lemma PlayStep(w: World, s: Sys, a: Act, more: seq<Act>)
    ensures Play(w, s, [a] + more) == Play(w, Do(w, s, a), more)
    ensures AllAllowed(w, s, [a] + more) <==> Allowed(w, s, a) && AllAllowed(w, Do(w, s, a), more)
  {
    hide Do, Allowed;
    assert ([a] + more)[1..] == more;
  }

  /** The first request of the wrong session, read, closes. */
  lemma ForeignReadCloses(w: World, s: Sys)
    requires Good(w, s) && s.sv.state == ACTIVE && s.sv.fid < TWO32 - 1 && s.sv.log.dispatched == []
    requires |Requests(s.cl)| == 1 && Requests(s.cl)[0].frame.ssid != s.sv.ssid
    requires ServerLaws.Inv(ServerCfg(w), s.sv)
    ensures var a := ServerRead([s.up], w.sentAt, 0, WHOLE);
            var t := Do(w, s, a).sv;
            && Allowed(w, s, a) && t.state == CLOSED && t.fd == -1 && t.ssid == s.sv.ssid
            && t.log.dispatched == [] && t.log.closes == s.sv.log.closes + [INVALID_REQUEST]
  {
    hide Stream, ParseOne, SealedReader, Lawful, Readable, EncodePlain, ReadFd, Requests, ServerLaws.Inv,
      UpStream, DownStream;
    var a := ServerRead([s.up], w.sentAt, 0, WHOLE);
    WholeCompletes(57);
    WholeCompletes(75);
    assert Concat([s.up]) == s.up;
    GoodActive(w, s);
    StepGood(w, s, a);
    StepKeepsServerInv(w, s, a);
    var t := Do(w, s, a);
    SessionOfDispatched(w, t);
    assert t.cl == s.cl && t.up == [];
    var d, n, refused := ServerReadIs(w, s, a);
    assert !OfSession(Requests(t.cl), s.sv.ssid);
    assert refused;
    assert d.log.dispatched == [];
    var p := RefusedRead(w, d, WHOLE);
  }

  /** A request asked for before CONNECTED carries session id 0 for good. If the
      server gives the session any other id, then for every such request that
      fits, letting it be sent once connected ends the session: the server closes
      it for INVALID_REQUEST having dispatched nothing. */
  lemma EarlyRequestCloses(w: World, fd: int, path: Bytes, data: Bytes, ssid: U64) returns (acts: seq<Act>)
    requires GoodWorld(w) && fd != -1 && ssid != 0
    requires |path| < TWO16 && 57 + |path| + |data| <= w.serverMax
    ensures AllAllowed(w, Init(w, fd), acts) && |acts| == 5 && acts[0] == ClientAsk(path, data)
    ensures var t := Play(w, Init(w, fd), acts);
            && t.sv.state == CLOSED && t.sv.fd == -1 && t.sv.ssid == ssid
            && t.sv.log.dispatched == [] && t.sv.log.closes == [INVALID_REQUEST]
  {
    hide Do, Allowed, Good, Requests, ServerLaws.Inv, Lawful, Init, GoodWorld;
    NewConnInv(ServerCfg(w), fd);
    var s0 := Init(w, fd);
    var a0 := ClientAsk(path, data);
    AskEarly(w, fd, path, data);
    var s1 := Do(w, s0, a0);
    ServerOpens(w, s1, ssid);
    var a1 := ServerRead([s1.up], w.sentAt, ssid, WHOLE);
    var s2 := Do(w, s1, a1);
    var a2 := ClientRead([s2.down]);
    var s3 := Do(w, s2, a2);
    ClientFollows(w, s2);
    var a3 := ClientPop(WHOLE.iv.value);
    PopEarly(w, s3, WHOLE.iv.value);
    var s4 := Do(w, s3, a3);
    var a4 := ServerRead([s4.up], w.sentAt, 0, WHOLE);
    ForeignReadCloses(w, s4);
    acts := [a0] + ([a1] + ([a2] + ([a3] + ([a4] + []))));
    PlayStep(w, s4, a4, []);
    PlayStep(w, s3, a3, [a4] + []);
    PlayStep(w, s2, a2, [a3] + ([a4] + []));
    PlayStep(w, s1, a1, [a2] + ([a3] + ([a4] + [])));
    PlayStep(w, s0, a0, [a1] + ([a2] + ([a3] + ([a4] + []))));
  }
}
