/** ClientConnection, the server's end of a session, as the object that updates
    its fields in place (server/structures.cpp). Every method is proved to compute
    the function of ServerSpec it implements. */
module ServerConnection {
  import opened Encoders
  import opened Crypto
  import opened Frames
  import opened Parsing
  import opened ServerSpec

  class ClientConnection {
    const suite: Suite
    const maxFrameSize: U32
    const hasOnClose: bool
    const connId: nat

    var fd: int
    var state: State
    var aesKey: Bytes
    var ssid: U64
    var fid: U32
    var lastCliFid: U32
    var inFrameBuffer: Bytes
    /** The call stack ran out; the process is gone. */
    var crashed: bool

    /** What callbacks and sockets have seen. */
    ghost var log: Log

    ghost function Cfg(): Config {
      Config(suite, maxFrameSize, hasOnClose)
    }

    ghost function Abs(): Conn
      reads this
    {
      Conn(fd, state, aesKey, ssid, fid, lastCliFid, inFrameBuffer, crashed, log)
    }

    constructor (fd: int, maxFrameSize: U32, suite: Suite, hasOnClose: bool, connCount: nat)
      ensures Abs() == NewConn(fd)
      ensures Cfg() == Config(suite, maxFrameSize, hasOnClose)
      ensures connId == connCount + 1
    {
      this.suite := suite;
      this.maxFrameSize := maxFrameSize;
      this.hasOnClose := hasOnClose;
      this.connId := connCount + 1;
      this.fd := fd;
      state := HANDSHAKE;
      aesKey := [];
      ssid := 0;
      this.fid := 0;
      lastCliFid := 0;
      inFrameBuffer := [];
      crashed := false;
      log := EMPTY_LOG;
    }

    method MakeResponseFrame(path: Bytes, data: Bytes, status: Byte, flags: Byte, rid: U32) returns (f: Frame)
      ensures f == MakeRespFrame(Abs(), path, data, status, flags, rid)
    {
      f := Frame(fid, rid, ssid, status, flags, path, data);
    }

    /** The send() loop: `accepts` are its return values. */
    method WriteAll(encoded: Bytes, a: Attempt) returns (total: nat)
      modifies this`log
      ensures total == PushedTo(fd, encoded, a)
      ensures log == old(log).(wire := old(log).wire + encoded[..total])
    {
      total := 0;
      var k := 0;
      ghost var wire := log.wire;
      assert wire + encoded[..0] == wire;
      while total < |encoded|
        invariant total <= |encoded| && k <= |a.accepts|
        invariant log == old(log).(wire := wire + encoded[..total])
        invariant fd == -1 ==> total == 0
        invariant fd != -1 ==> Pushed(|encoded|, a.accepts) == total + Pushed(|encoded| - total, a.accepts[k..])
        decreases |encoded| - total
      {
        if fd == -1 || k == |a.accepts| || a.accepts[k] <= 0 {
          return;
        }
        var sent := if a.accepts[k] < |encoded| - total then a.accepts[k] else |encoded| - total;
        assert a.accepts[k..][1..] == a.accepts[k + 1..];
        log := log.(wire := log.wire + encoded[total..total + sent]);
        assert encoded[..total] + encoded[total..total + sent] == encoded[..total + sent];
        Joined(wire, encoded[..total], encoded[total..total + sent]);
        total := total + sent;
        k := k + 1;
      }
    }

    method SendFrame(frame: Frame, atts: seq<Attempt>)
      requires !crashed
      modifies this
      ensures Abs() == Send(Cfg(), old(Abs()), frame, atts)
      decreases |atts|, 0
    {
      hide Encode;
      if atts == [] {
        crashed := true;
        return;
      }
      fid := (fid + 1) % TWO32;
      log := log.(calls := log.calls + 1);
      var encoded := EncodeFrame(suite, frame, true, aesKey, atts[0].iv, fid);
      if encoded.Err? {
        CloseConnection(ENCRYPTION_ERROR, true, atts[1..]);
        return;
      }
      var total := WriteAll(encoded.value, atts[0]);
      log := log.(sent := log.sent + [Emission(Packet(frame.(fid := WireFid(frame, fid)), encoded.value), total)]);
      if total < |encoded.value| {
        CloseConnection(SOCKET_ERROR, true, atts[1..]);
      }
    }

    method CloseConnection(reason: CloseReason, invokeOnClose: bool, atts: seq<Attempt>)
      requires !crashed
      modifies this
      ensures Abs() == Close(Cfg(), old(Abs()), reason, invokeOnClose, atts)
      decreases |atts|, 1
    {
      hide Encode;
      if state == CLOSED {
        return;
      }
      if fd != -1 {
        if reason != NATURAL {
          var farewell := MakeResponseFrame([], [], STATUS_OK, 0, 0);
          SendFrame(farewell, atts);
          if crashed {
            return;
          }
        }
        fd := -1;
      }
      state := CLOSED;
      if invokeOnClose && hasOnClose {
        log := log.(closes := log.closes + [reason]);
      } else {
        assert log.closes + [] == log.closes;
      }
    }

    /** The checks at the top of the parse loop, and the decoding of the frame
        they find. */
    method NextFrame() returns (p: Progress)
      ensures p == ParseOne(ReaderOf(Cfg(), Abs()), inFrameBuffer)
    {
      hide Decode, ValidateProtocol, FrameBodySize;
      if |inFrameBuffer| < MIN_FRAME_SIZE {
        return Need;
      }
      if !ValidateProtocol(inFrameBuffer) {
        return Bad(NotProtocol);
      }
      var bodyLen := FrameBodySize(inFrameBuffer);
      if bodyLen > maxFrameSize || bodyLen + HEADER_SIZE > maxFrameSize {
        return Bad(TooLong);
      }
      if |inFrameBuffer| < bodyLen + HEADER_SIZE {
        return Need;
      }
      var frameBuf := inFrameBuffer[..bodyLen + HEADER_SIZE];
      var decoded :=
        if state == HANDSHAKE then Decode(suite, frameBuf, false, []) else Decode(suite, frameBuf, true, aesKey);
      if decoded.Err? {
        return Bad(Undecodable(decoded.failure));
      }
      return Got(decoded.value, bodyLen + HEADER_SIZE);
    }

    method ParseFrames(atts: seq<Attempt>) returns (frames: seq<Frame>)
      requires !crashed
      modifies this
      ensures (Abs(), frames) == Parse(Cfg(), old(Abs()), atts)
    {
      hide ParseOne, Close, SealedReader, PlainReader;
      frames := [];
      ghost var r := ReaderOf(Cfg(), Abs());
      ghost var whole := ParseAll(r, inFrameBuffer);
      assert [] + whole.frames == whole.frames;
      while true
        invariant Abs() == old(Abs()).(inBuf := inFrameBuffer)
        invariant state == HANDSHAKE ==> frames == [] && inFrameBuffer == old(inFrameBuffer)
        invariant whole == ParseAll(r, inFrameBuffer).(frames := frames + ParseAll(r, inFrameBuffer).frames)
        decreases |inFrameBuffer|
      {
        assert frames + [] == frames;
        var p := NextFrame();
        if p.Need? {
          return;
        }
        if p.Bad? {
          assert state == HANDSHAKE ==> Abs() == old(Abs());
          CloseConnection(if p.fault == TooLong then REQUEST_TOO_LONG else INVALID_REQUEST, true, atts);
          return;
        }
        inFrameBuffer := inFrameBuffer[p.size..];
        Joined(frames, [p.frame], ParseAll(r, inFrameBuffer).frames);
        frames := frames + [p.frame];
        if state == HANDSHAKE {
          assert frames == [p.frame];
          return;
        }
      }
    }

    method ValidateFrame(frame: Frame, atts: seq<Attempt>) returns (ok: bool)
      requires !crashed
      modifies this
      ensures ok == Fresh(old(ssid), old(lastCliFid), frame)
      ensures Abs() == if ok then old(Abs()) else Close(Cfg(), old(Abs()), INVALID_REQUEST, true, atts)
    {
      if frame.ssid != ssid || frame.fid <= lastCliFid {
        CloseConnection(INVALID_REQUEST, true, atts);
        return false;
      }
      return true;
    }

    /** `newSsid` is None when rand64 throws, which the caller catches. */
    method InstallKey(key: Bytes, newSsid: Option<U64>, atts: seq<Attempt>) returns (ok: bool)
      requires !crashed
      modifies this
      ensures Outcome(Abs(), ok) == SetAesKey(Cfg(), old(Abs()), key, newSsid, atts)
    {
      hide Send, Close;
      aesKey := key;
      if newSsid.None? {
        CloseConnection(ENCRYPTION_ERROR, true, atts);
        return false;
      }
      ssid := newSsid.value;
      log := log.(prefix := |log.received| - Min(|inFrameBuffer|, |log.received|));
      var secured := MakeResponseFrame([], SECURED, STATUS_OK, 0, 0);
      SendFrame(secured, atts);
      if crashed {
        return false;
      }
      state := ACTIVE;
      return true;
    }

    method DoHandshake(sealedKey: Bytes, now: U32, newSsid: Option<U64>, atts: seq<Attempt>) returns (ok: bool)
      requires !crashed
      modifies this
      ensures Outcome(Abs(), ok) == Handshake(Cfg(), old(Abs()), sealedKey, now, newSsid, atts)
    {
      hide Close, SetAesKey;
      var decrypted := suite.rsaOpen(sealedKey);
      if decrypted.None? || |decrypted.value| != KEY_SIZE + 4 {
        CloseConnection(ENCRYPTION_ERROR, true, atts);
        return false;
      }
      var timestamp := PtrToU32(decrypted.value[KEY_SIZE..]);
      if (timestamp - now) % TWO32 > 60 {
        CloseConnection(ENCRYPTION_ERROR, true, atts);
        return false;
      }
      ok := InstallKey(decrypted.value[..KEY_SIZE], newSsid, atts);
    }

    /** The dispatch loop of readFd. */
    method DispatchAll(frames: seq<Frame>, atts: seq<Attempt>) returns (ok: bool)
      requires !crashed
      modifies this
      ensures Outcome(Abs(), ok) == Dispatch(Cfg(), old(Abs()), frames, atts)
    {
      hide Close;
      var k := 0;
      assert frames[0..] == frames;
      while k < |frames|
        invariant k <= |frames| && !crashed
        invariant Dispatch(Cfg(), Abs(), frames[k..], atts) == Dispatch(Cfg(), old(Abs()), frames, atts)
      {
        var frame := frames[k];
        assert frames[k..][0] == frame && frames[k..][1..] == frames[k + 1..];
        var valid := ValidateFrame(frame, atts);
        if !valid {
          return false;
        }
        lastCliFid := frame.fid;
        log := log.(dispatched := log.dispatched + [frame]);
        k := k + 1;
      }
      return true;
    }

    /** The recv() loop of readFd: it appends every chunk before anything is parsed. */
    method Drain(chunks: seq<Bytes>)
      modifies this`inFrameBuffer, this`log
      ensures Abs() == Append(old(Abs()), Concat(chunks))
    {
      var k := 0;
      ghost var buf, received := inFrameBuffer, log.received;
      assert chunks[..0] == [];
      assert buf + Concat([]) == buf && received + Concat([]) == received;
      while k < |chunks|
        invariant k <= |chunks|
        invariant inFrameBuffer == buf + Concat(chunks[..k])
        invariant log == old(log).(received := received + Concat(chunks[..k]))
      {
        inFrameBuffer := inFrameBuffer + chunks[k];
        log := log.(received := log.received + chunks[k]);
        ConcatAppend(chunks[..k], [chunks[k]]);
        assert chunks[..k] + [chunks[k]] == chunks[..k + 1];
        assert Concat([chunks[k]]) == chunks[k] + Concat([]);
        Joined(buf, Concat(chunks[..k]), chunks[k]);
        Joined(received, Concat(chunks[..k]), chunks[k]);
        k := k + 1;
      }
      assert chunks[..k] == chunks;
    }

    method Receive(i: Input) returns (ok: bool)
      requires !crashed
      modifies this
      ensures Outcome(Abs(), ok) == ReadFd(Cfg(), old(Abs()), i)
    {
      hide Close, Parse, Handshake, Dispatch, Concat;
      if fd == -1 {
        CloseConnection(SOCKET_ERROR, true, i.atts);
        return false;
      }
      Drain(i.chunks);
      if i.end == Eof {
        CloseConnection(NATURAL, true, i.atts);
        return false;
      }
      if i.end == Failed {
        CloseConnection(SOCKET_ERROR, true, i.atts);
        return false;
      }
      var frames := ParseFrames(i.atts);
      if crashed {
        return false;
      }
      if state == HANDSHAKE && |frames| > 0 {
        ok := DoHandshake(frames[0].data, i.now, i.ssid, i.atts);
      } else if state == ACTIVE {
        ok := DispatchAll(frames, i.atts);
      } else {
        ok := true;
      }
    }
  }
}
