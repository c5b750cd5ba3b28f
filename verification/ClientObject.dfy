/** Connection, the client's end of a session, as the object that updates its
    fields in place (client/Connection.cpp). Every method is proved to compute the
    function of ClientSpec it implements. */
module ClientObject {
  import opened Encoders
  import opened Crypto
  import opened Frames
  import opened Parsing
  import opened ServerSpec
  import opened ClientSpec
  import HandOff

  class Connection {
    const suite: Suite
    const maxFrameSize: U32
    const hasOnClose: bool

    var phase: Phase
    var running: bool
    var aborted: bool
    var aesKey: Bytes
    var fid: U32
    var rid: U32
    var ssid: U64
    var lastSrvFid: U32
    var handshakeSent: bool
    var frameBuffer: Bytes
    const commandQueue: HandOff.ConcurrentQueue<Command>

    ghost var trace: Trace

    ghost function Cfg(): Settings {
      Settings(suite, maxFrameSize, hasOnClose)
    }

    ghost function Abs(): Client
      reads this, commandQueue
    {
      Client(phase, running, aborted, aesKey, fid, rid, ssid, lastSrvFid, handshakeSent, frameBuffer,
             commandQueue.items, trace)
    }

    constructor (suite: Suite, maxFrameSize: U32, hasOnClose: bool)
      ensures Abs() == NEW_CLIENT
      ensures Cfg() == Settings(suite, maxFrameSize, hasOnClose)
    {
      this.suite := suite;
      this.maxFrameSize := maxFrameSize;
      this.hasOnClose := hasOnClose;
      phase := SHAKING;
      running := true;
      aborted := false;
      aesKey := [];
      fid, rid, ssid, lastSrvFid := 0, 0, 0, 0;
      handshakeSent := false;
      frameBuffer := [];
      commandQueue := new HandOff.ConcurrentQueue<Command>();
      trace := Trace([], [], [], [], 0);
    }

    method MakeRequestFrame(path: Bytes, data: Bytes, flags: Byte) returns (f: Frame)
      modifies this`rid
      ensures (Abs(), f) == MakeReqFrame(old(Abs()), path, data, flags)
    {
      rid := (rid + 1) % TWO32;
      f := Frame(fid, rid, ssid, STATUS_REQ, flags, path, data);
    }

    method SendRequest(path: Bytes, data: Bytes) returns (ok: bool)
      requires !aborted
      modifies this`rid, commandQueue
      ensures (Abs(), ok) == Request(old(Abs()), path, data)
    {
      if !running || phase == SHUT {
        return false;
      }
      var f := MakeRequestFrame(path, data, 0);
      commandQueue.Push(SendCmd(Some(f)));
      return true;
    }

    method CloseClient()
      modifies this
      ensures Abs() == Shutdown(Cfg(), old(Abs()))
    {
      if !running || phase == SHUT {
        return;
      }
      if hasOnClose {
        trace := trace.(closes := trace.closes + 1);
      }
      phase := SHUT;
      running := false;
    }

    method PushOnce(sealed: bool, p: Packet, accepted: int)
      modifies this`trace
      ensures Abs() == Push(old(Abs()), sealed, p, accepted)
    {
      ghost var n := if phase == SHUT || accepted <= 0 then 0 else Min(accepted, |p.bytes|);
      trace := trace.(wire := trace.wire + p.bytes[..n], sent := trace.sent + [Emitted(sealed, p, n)]);
    }

    method Handle(cmd: Command, iv: Option<Bytes>, accepted: int)
      modifies this
      ensures Abs() == HandleCommand(Cfg(), old(Abs()), cmd, iv, accepted)
    {
      hide Encode, EncodePlain, Push;
      if cmd.CloseCmd? {
        CloseClient();
        return;
      }
      if cmd.frame.None? {
        aborted := true;
        return;
      }
      var frame := cmd.frame.value;
      if phase == SHAKING {
        if handshakeSent {
          return;
        }
        handshakeSent := true;
        PlainEncoding(suite, frame);
        var toBeSent := EncodeFrame(suite, frame, false, [], None, 0);
        PushOnce(false, Packet(frame, toBeSent.value), accepted);
        return;
      }
      fid := (fid + 1) % TWO32;
      frame := frame.(fid := fid);
      var encoded := EncodeFrame(suite, frame, true, aesKey, iv, 0);
      if encoded.Err? {
        aborted := true;
        return;
      }
      PushOnce(true, Packet(frame, encoded.value), accepted);
    }

    /** The drain loop: pop and handle until the queue is empty or handling throws.
        `env` holds the IV and the result of the send of each command. */
    method DrainCommands(env: seq<(Option<Bytes>, int)>)
      requires !aborted && |env| == |commandQueue.items|
      modifies this, commandQueue
      ensures Abs() == PopAll(Cfg(), old(Abs()), env)
    {
      hide HandleCommand;
      var k := 0;
      var cmd, more := CloseCmd, true;
      assert env[0..] == env;
      while more && !aborted
        invariant k <= |env| && |commandQueue.items| == |env| - k
        invariant !more ==> k == |env|
        invariant PopAll(Cfg(), Abs(), env[k..]) == PopAll(Cfg(), old(Abs()), env)
        decreases |env| - k, more
      {
        more, cmd := commandQueue.TryPop(cmd);
        if more {
          assert env[k..][1..] == env[k + 1..];
          Handle(cmd, env[k].0, env[k].1);
          k := k + 1;
        }
      }
    }

    method StartHandshake(key: Option<Bytes>, padding: Option<Bytes>, now: U32, accepted: int)
      modifies this
      ensures Abs() == DoHandshake(Cfg(), old(Abs()), key, padding, now, accepted)
    {
      hide HandleCommand;
      if key.None? {
        aborted := true;
        return;
      }
      aesKey := key.value;
      if padding.None? {
        aborted := true;
        return;
      }
      var sealedKey := suite.rsaSeal(padding.value, aesKey + U32ToStr(now));
      var f := MakeRequestFrame([], sealedKey, 0);
      Handle(SendCmd(Some(f)), None, accepted);
    }

    /** The checks at the top of the parse loop, and the decoding of the frame
        they find. */
    method NextFrame() returns (p: Progress)
      ensures p == ParseOne(SessionReaderOf(Cfg(), Abs()), frameBuffer)
    {
      hide Decode, ValidateProtocol, FrameBodySize;
      if |frameBuffer| < MIN_FRAME_SIZE {
        return Need;
      }
      if !ValidateProtocol(frameBuffer) {
        return Bad(NotProtocol);
      }
      var bodyLen := FrameBodySize(frameBuffer);
      if bodyLen > maxFrameSize || bodyLen + HEADER_SIZE > maxFrameSize {
        return Bad(TooLong);
      }
      if |frameBuffer| < bodyLen + HEADER_SIZE {
        return Need;
      }
      var decoded := Decode(suite, frameBuffer[..bodyLen + HEADER_SIZE], true, aesKey);
      if decoded.Err? {
        return Bad(Undecodable(decoded.failure));
      }
      return Got(decoded.value, bodyLen + HEADER_SIZE);
    }

    /** The parse loop; `threw` is a std::runtime_error on its way out. */
    method ParseFrames() returns (frames: seq<Frame>, threw: bool)
      modifies this
      ensures Batch(Abs(), frames, threw) == ParseBuffer(Cfg(), old(Abs()))
    {
      hide ParseOne, Shutdown, SealedReader;
      frames := [];
      threw := false;
      ghost var whole := ParseBuffer(Cfg(), Abs());
      assert [] + whole.frames == whole.frames;
      while true
        invariant !threw && aesKey == old(aesKey)
        invariant whole == ParseBuffer(Cfg(), Abs()).(frames := frames + ParseBuffer(Cfg(), Abs()).frames)
        decreases |frameBuffer|
      {
        assert frames + [] == frames;
        var p := NextFrame();
        if p.Need? {
          return;
        }
        if p == Bad(Undecodable(Runtime)) {
          threw := true;
          return;
        }
        if p.Bad? {
          CloseClient();
          return;
        }
        if phase == SHAKING {
          if p.frame.data != SECURED {
            threw := true;
            return;
          }
          phase := CONNECTED;
          ssid := p.frame.ssid;
          frameBuffer := frameBuffer[p.size..];
        } else {
          frameBuffer := frameBuffer[p.size..];
          Joined(frames, [p.frame], ParseBuffer(Cfg(), Abs()).frames);
          frames := frames + [p.frame];
        }
      }
    }

    method ValidateFrame(frame: Frame) returns (ok: bool)
      modifies this
      ensures ok == Fresh(old(ssid), old(lastSrvFid), frame)
      ensures Abs() == if ok then old(Abs()) else Shutdown(Cfg(), old(Abs()))
    {
      if frame.fid <= lastSrvFid || frame.ssid != ssid {
        CloseClient();
        return false;
      }
      return true;
    }

    /** The delivery loop of the event loop. */
    method DeliverFrames(frames: seq<Frame>)
      modifies this
      ensures Abs() == DeliverAll(Cfg(), old(Abs()), frames)
    {
      hide Shutdown;
      var k := 0;
      assert frames[0..] == frames;
      while k < |frames|
        invariant k <= |frames|
        invariant DeliverAll(Cfg(), Abs(), frames[k..]) == DeliverAll(Cfg(), old(Abs()), frames)
      {
        var frame := frames[k];
        assert frames[k..][0] == frame && frames[k..][1..] == frames[k + 1..];
        var valid := ValidateFrame(frame);
        if !valid {
          break;
        }
        lastSrvFid := frame.fid;
        trace := trace.(delivered := trace.delivered + [frame]);
        k := k + 1;
      }
    }

    method OnReadable(chunks: seq<Bytes>, end: RecvEnd)
      modifies this
      ensures Abs() == OnSocket(Cfg(), old(Abs()), chunks, end)
    {
      hide Shutdown, ParseBuffer, DeliverAll;
      Drain(chunks);
      if end != WouldBlock {
        CloseClient();
      }
      var frames, threw := ParseFrames();
      if threw {
        aborted := true;
      } else {
        DeliverFrames(frames);
      }
    }

    method Drain(chunks: seq<Bytes>)
      modifies this`frameBuffer, this`trace
      ensures Abs() == Gather(old(Abs()), Concat(chunks))
    {
      var k := 0;
      ghost var buf, received := frameBuffer, trace.received;
      assert chunks[..0] == [];
      assert buf + Concat([]) == buf && received + Concat([]) == received;
      while k < |chunks|
        invariant k <= |chunks|
        invariant frameBuffer == buf + Concat(chunks[..k])
        invariant trace == old(trace).(received := received + Concat(chunks[..k]))
      {
        frameBuffer := frameBuffer + chunks[k];
        trace := trace.(received := trace.received + chunks[k]);
        ConcatAppend(chunks[..k], [chunks[k]]);
        assert chunks[..k] + [chunks[k]] == chunks[..k + 1];
        assert Concat([chunks[k]]) == chunks[k] + Concat([]);
        Joined(buf, Concat(chunks[..k]), chunks[k]);
        Joined(received, Concat(chunks[..k]), chunks[k]);
        k := k + 1;
      }
      assert chunks[..k] == chunks;
    }
  }

  lemma PlainEncoding(c: Suite, f: Frame)
    ensures Encode(c, f, false, [], None, 0) == Ok(EncodePlain(f, 0))
  {
  }
}
