/** More of what every run of a server connection keeps: what it emits, how much
    reads may be cut, when the handshake succeeds, what never changes again. */
module ServerTheorems {
  import opened Encoders
  import opened Crypto
  import opened Frames
  import opened Parsing
  import opened ServerSpec
  import opened ServerLaws

  // -------- emission --------

  ghost function Written(es: seq<Emission>): Bytes {
    if es == [] then []
    else
      var e := es[|es| - 1];
      Written(es[..|es| - 1]) + e.packet.bytes[..Min(e.pushed, |e.packet.bytes|)]
  }

  function Packets(es: seq<Emission>): (ps: seq<Packet>)
    ensures |ps| == |es| && forall i :: 0 <= i < |es| ==> ps[i] == es[i].packet
  {
    seq(|es|, i requires 0 <= i < |es| => es[i].packet)
  }

  function FidAt(es: seq<Emission>, i: nat): U32
    requires i < |es|
  {
    es[i].packet.frame.fid
  }

  /** Ids strictly increase within the calls made, and are 1, 2, 3, ... if every
      call produced an encoding. */
  ghost predicate InOrder(es: seq<Emission>, calls: nat) {
    && (forall i :: 0 <= i < |es| ==> 1 <= FidAt(es, i) <= calls)
    && (forall i, j :: 0 <= i < j < |es| ==> FidAt(es, i) < FidAt(es, j))
    && (|es| == calls ==> forall i :: 0 <= i < |es| ==> FidAt(es, i) == i + 1)
  }

  /** The bytes are what sealing the frame under the key gives. */
  ghost predicate Encodes(c: Suite, key: Bytes, p: Packet) {
    exists iv: Option<Bytes> :: Encode(c, p.frame, true, key, iv, 0) == Ok(p.bytes)
  }

  /** Everything emitted is sealed under the session's key; without one, nothing is. */
  ghost predicate AllSealed(c: Suite, s: Conn) {
    && (|s.aesKey| != KEY_SIZE ==> s.log.sent == [])
    && (forall i :: 0 <= i < |s.log.sent| ==> Encodes(c, s.aesKey, s.log.sent[i].packet))
  }

  /** Giving the id on the wire beforehand makes no difference to the bytes. */
  lemma EncodesWireFid(c: Suite, f: Frame, key: Bytes, iv: Option<Bytes>, replacement: U32)
    requires Encode(c, f, true, key, iv, replacement).Ok?
    ensures |key| == KEY_SIZE
    ensures Encodes(c, key, Packet(f.(fid := WireFid(f, replacement)), Encode(c, f, true, key, iv, replacement).value))
  {
    hide BodyHeader, AesEncrypt;
    SameBody(f, replacement);
    var h := f.(fid := WireFid(f, replacement));
    assert Encode(c, h, true, key, iv, 0) == Encode(c, f, true, key, iv, replacement);
  }

  lemma SameBody(f: Frame, replacement: U32)
    ensures Body(f.(fid := WireFid(f, replacement)), 0) == Body(f, replacement)
  {
  }

  /** Up to the wrap of the 32-bit counter, frame ids on the wire are the call
      numbers; nothing reaches the wire but the parts of encodings that got out. */
  ghost predicate Numbered(c: Suite, s: Conn) {
    && s.fid == s.log.calls % TWO32
    && |s.log.sent| <= s.log.calls
    && s.log.wire == Written(s.log.sent)
    && (s.log.calls < TWO32 ==> InOrder(s.log.sent, s.log.calls))
    && AllSealed(c, s)
  }

  /** There is no key before the handshake is over. */
  ghost predicate Keyless(s: Conn) {
    s.state == HANDSHAKE && !s.crashed ==> s.aesKey == []
  }

  lemma InOrderAppend(es: seq<Emission>, e: Emission, calls: nat)
    requires InOrder(es, calls) && |es| <= calls && e.packet.frame.fid == calls + 1
    ensures InOrder(es + [e], calls + 1)
  {
    forall i | 0 <= i < |es|
      ensures FidAt(es + [e], i) == FidAt(es, i)
    {
    }
    assert FidAt(es + [e], |es|) == calls + 1;
  }

  lemma WrittenAppend(es: seq<Emission>, e: Emission)
    ensures Written(es + [e]) == Written(es) + e.packet.bytes[..Min(e.pushed, |e.packet.bytes|)]
  {
    assert (es + [e])[..|es|] == es;
  }

  lemma EmitNumbered(g: Config, s: Conn, f: Frame, iv: Option<Bytes>, bytes: Bytes, n: nat)
    requires Numbered(g.suite, s) && n <= |bytes|
    requires Encode(g.suite, f, true, s.aesKey, iv, NextFid(s.fid)) == Ok(bytes)
    ensures Numbered(g.suite, Emit(s.(fid := NextFid(s.fid), log := s.log.(calls := s.log.calls + 1)), f, bytes, n))
  {
    hide InOrder, Written, Encode, Encodes;
    EncodesWireFid(g.suite, f, s.aesKey, iv, NextFid(s.fid));
    var t := Emit(s.(fid := NextFid(s.fid), log := s.log.(calls := s.log.calls + 1)), f, bytes, n);
    var e := t.log.sent[|s.log.sent|];
    WrittenAppend(s.log.sent, e);
    if t.log.calls < TWO32 {
      InOrderAppend(s.log.sent, e, s.log.calls);
    }
  }

  lemma {:induction false} SendNumbered(g: Config, s: Conn, f: Frame, atts: seq<Attempt>)
    requires Numbered(g.suite, s)
    ensures Numbered(g.suite, Send(g, s, f, atts))
    decreases |atts|, 0
  {
    hide Encode, Emit, Numbered, Close;
    if atts == [] {
      assert Numbered(g.suite, s.(crashed := true)) by { NumberedIgnores(g, s, s.(crashed := true)); }
    } else {
      var s1 := s.(fid := NextFid(s.fid), log := s.log.(calls := s.log.calls + 1));
      SkippedNumbered(g, s);
      match Encode(g.suite, f, true, s.aesKey, atts[0].iv, s1.fid)
      case Err(_) => CloseNumbered(g, s1, ENCRYPTION_ERROR, true, atts[1..]);
      case Ok(bytes) =>
        var n := PushedTo(s.fd, bytes, atts[0]);
        EmitNumbered(g, s, f, atts[0].iv, bytes, n);
        CloseNumbered(g, Emit(s1, f, bytes, n), SOCKET_ERROR, true, atts[1..]);
    }
  }

  lemma NumberedIgnores(g: Config, s: Conn, t: Conn)
    requires Numbered(g.suite, s) && t.fid == s.fid
    requires t.log.calls == s.log.calls && t.log.sent == s.log.sent && t.log.wire == s.log.wire
    requires t.aesKey == s.aesKey || |s.aesKey| != KEY_SIZE
    ensures Numbered(g.suite, t)
  {
    hide Written, InOrder, Encodes;
  }

  /** A call whose encoding failed uses up an id. */
  lemma SkippedNumbered(g: Config, s: Conn)
    requires Numbered(g.suite, s)
    ensures Numbered(g.suite, s.(fid := NextFid(s.fid), log := s.log.(calls := s.log.calls + 1)))
  {
    hide Written, Encodes;
  }

  lemma {:induction false} CloseNumbered(g: Config, s: Conn, reason: CloseReason, invoke: bool, atts: seq<Attempt>)
    requires Numbered(g.suite, s)
    ensures Numbered(g.suite, Close(g, s, reason, invoke, atts))
    decreases |atts|, 1
  {
    hide Send, Numbered;
    SendNumbered(g, s, Farewell(s), atts);
    var s1 := if s.fd != -1 && reason != NATURAL then Send(g, s, Farewell(s), atts) else s;
    NumberedIgnores(g, s1, Finish(g, s1, reason, invoke));
  }

  lemma {:induction false} DispatchNumbered(g: Config, s: Conn, fs: seq<Frame>, atts: seq<Attempt>)
    requires Numbered(g.suite, s)
    ensures Numbered(g.suite, Dispatch(g, s, fs, atts).conn)
  {
    hide Close, Numbered, Dispatch;
    DispatchIs(g, s, fs, atts);
    var a := Accepted(s.ssid, s.lastCliFid, fs);
    NumberedIgnores(g, s, Delivered(s, fs));
    NumberedIgnores(g, s, Delivered(s, a));
    CloseNumbered(g, Delivered(s, a), INVALID_REQUEST, true, atts);
  }

  lemma HandshakeNumbered(g: Config, s: Conn, sealedKey: Bytes, now: U32, ssid: Option<U64>, atts: seq<Attempt>)
    requires Numbered(g.suite, s) && s.aesKey == []
    ensures Numbered(g.suite, Handshake(g, s, sealedKey, now, ssid, atts).conn)
  {
    hide Close, Send, Numbered;
    CloseNumbered(g, s, ENCRYPTION_ERROR, true, atts);
    match g.suite.rsaOpen(sealedKey)
    case None =>
    case Some(plain) =>
      if |plain| == KEY_SIZE + 4 {
        var s1 := s.(aesKey := plain[..KEY_SIZE]);
        NumberedIgnores(g, s, s1);
        CloseNumbered(g, s1, ENCRYPTION_ERROR, true, atts);
        if ssid.Some? {
          var s2 := s1.(ssid := ssid.value, log := s1.log.(prefix := |s.log.received| - Min(|s.inBuf|,
                  |s.log.received|)));
          NumberedIgnores(g, s1, s2);
          SendNumbered(g, s2, SecuredFrame(s2), atts);
          var t := Send(g, s2, SecuredFrame(s2), atts);
          NumberedIgnores(g, t, t.(state := ACTIVE));
        }
      }
  }

  lemma ProcessNumbered(g: Config, s: Conn, i: Input)
    requires Numbered(g.suite, s) && Keyless(s) && !s.crashed
    ensures Numbered(g.suite, Process(g, s, i).conn)
  {
    hide Close, Dispatch, Handshake, ParseOne, ParseAll, Numbered, ReaderOf;
    var r := ReaderOf(g, s);
    if s.state == HANDSHAKE {
      match ParseOne(r, s.inBuf)
      case Need =>
      case Bad(fault) =>
        CloseNumbered(g, s, ReasonFor(fault), true, i.atts);
        CloseQuiet(g, s, ReasonFor(fault), true, i.atts);
      case Got(f, size) =>
        var s1 := s.(inBuf := s.inBuf[size..]);
        NumberedIgnores(g, s, s1);
        HandshakeNumbered(g, s1, f.data, i.now, i.ssid, i.atts);
    } else {
      var p := ParseAll(r, s.inBuf);
      var s1 := s.(inBuf := p.rest);
      NumberedIgnores(g, s, s1);
      DispatchNumbered(g, s1, p.frames, i.atts);
      if p.fault.Some? {
        CloseNumbered(g, s1, ReasonFor(p.fault.value), true, i.atts);
        DispatchNumbered(g, Close(g, s1, ReasonFor(p.fault.value), true, i.atts), p.frames, i.atts);
        CloseQuiet(g, s1, ReasonFor(p.fault.value), true, i.atts);
      }
    }
  }

  lemma {:induction false} RunNumbered(g: Config, s: Conn, ops: seq<Op>)
    requires Numbered(g.suite, s) && Keyless(s)
    ensures Numbered(g.suite, Run(g, s, ops)) && Keyless(Run(g, s, ops))
    decreases |ops|
  {
    hide Step, Numbered, Keyless;
    if ops != [] {
      StepNumbered(g, s, ops[0]);
      StepKeyless(g, s, ops[0]);
      RunNumbered(g, Step(g, s, ops[0]), ops[1..]);
    }
  }

  lemma StepNumbered(g: Config, s: Conn, op: Op)
    requires Numbered(g.suite, s) && Keyless(s)
    ensures Numbered(g.suite, Step(g, s, op))
  {
    hide Close, Send, Process, Numbered;
    if s.crashed {
      return;
    }
    match op
    case SendOp(f, atts) => SendNumbered(g, s, f, atts);
    case CloseOp(reason, invoke, atts) => CloseNumbered(g, s, reason, invoke, atts);
    case Read(i) =>
      CloseNumbered(g, s, SOCKET_ERROR, true, i.atts);
      var s1 := Append(s, Concat(i.chunks));
      NumberedIgnores(g, s, s1);
      CloseNumbered(g, s1, NATURAL, true, i.atts);
      CloseNumbered(g, s1, SOCKET_ERROR, true, i.atts);
      ProcessNumbered(g, s1, i);
  }

  lemma StepKeyless(g: Config, s: Conn, op: Op)
    requires Keyless(s)
    ensures Keyless(Step(g, s, op))
  {
    hide Close, Send, Process, Concat;
    match op
    case SendOp(f, atts) => SendQuiet(g, s, f, atts);
    case CloseOp(reason, invoke, atts) => CloseQuiet(g, s, reason, invoke, atts);
    case Read(i) =>
      CloseQuiet(g, s, SOCKET_ERROR, true, i.atts);
      var s1 := Append(s, Concat(i.chunks));
      CloseQuiet(g, s1, NATURAL, true, i.atts);
      CloseQuiet(g, s1, SOCKET_ERROR, true, i.atts);
      if !s.crashed {
        ProcessKeyless(g, s1, i);
      }
  }

  lemma ProcessKeyless(g: Config, s: Conn, i: Input)
    requires Keyless(s) && !s.crashed
    ensures Keyless(Process(g, s, i).conn)
  {
    hide Close, Send, Dispatch, ParseOne, ParseAll, ReaderOf, Timely, Accepted;
    var (s1, frames) := Parse(g, s, i.atts);
    if s.state == HANDSHAKE && frames != [] {
      CloseQuiet(g, s1, ENCRYPTION_ERROR, true, i.atts);
      match g.suite.rsaOpen(frames[0].data)
      case None =>
      case Some(plain) =>
        if |plain| == KEY_SIZE + 4 {
          CloseQuiet(g, s1.(aesKey := plain[..KEY_SIZE]), ENCRYPTION_ERROR, true, i.atts);
        }
    } else {
      var one := ParseOne(ReaderOf(g, s), s.inBuf);
      if one.Bad? {
        CloseQuiet(g, s, ReasonFor(one.fault), true, i.atts);
      }
      var p := ParseAll(ReaderOf(g, s), s.inBuf);
      if p.fault.Some? {
        CloseQuiet(g, s.(inBuf := p.rest), ReasonFor(p.fault.value), true, i.atts);
      }
      DispatchIs(g, s1, frames, i.atts);
      CloseQuiet(g, Delivered(s1, Accepted(s1.ssid, s1.lastCliFid, frames)), INVALID_REQUEST, true, i.atts);
    }
  }

  lemma {:induction false} WrittenWhole(es: seq<Emission>)
    requires forall i :: 0 <= i < |es| ==> es[i].pushed == |es[i].packet.bytes|
    ensures Written(es) == Stream(Packets(es))
  {
    if es != [] {
      var n := |es| - 1;
      WrittenWhole(es[..n]);
      assert Packets(es) == Packets(es[..n]) + [es[n].packet];
      StreamAppend(Packets(es[..n]), [es[n].packet]);
      assert Stream([es[n].packet]) == es[n].packet.bytes;
      assert es[n].packet.bytes[..|es[n].packet.bytes|] == es[n].packet.bytes;
    }
  }

  /** In every run, over the first 2^32 - 1 sendFrame calls and whatever order
      their frames were built in: frame ids on the wire strictly increase and lie
      among the call numbers, each failed encoding leaving one of those out; if
      none failed they are 1, 2, 3, ...; and while no write fails, the wire is the concatenation of their
      encodings, however partial the writes were. Every packet is the sealing of
      its frame, id included, under the session's key. */
  lemma EmissionIsNumbered(g: Config, fd: int, ops: seq<Op>)
    ensures var s := Run(g, NewConn(fd), ops);
            && (s.log.calls < TWO32 ==>
                  && (forall i :: 0 <= i < |s.log.sent| ==> 1 <= s.log.sent[i].packet.frame.fid <= s.log.calls)
                  && (forall i, j :: 0 <= i < j < |s.log.sent| ==>
                        s.log.sent[i].packet.frame.fid < s.log.sent[j].packet.frame.fid))
            && (s.log.calls < TWO32 && |s.log.sent| == s.log.calls ==>
                  forall i :: 0 <= i < |s.log.sent| ==> s.log.sent[i].packet.frame.fid == i + 1)
            && ((forall i :: 0 <= i < |s.log.sent| ==> s.log.sent[i].pushed == |s.log.sent[i].packet.bytes|) ==>
                  s.log.wire == Stream(Packets(s.log.sent)))
            && (forall i :: 0 <= i < |s.log.sent| ==> Encodes(g.suite, s.aesKey, s.log.sent[i].packet))
  {
    hide Run, Stream, Encodes;
    assert Numbered(g.suite, NewConn(fd));
    RunNumbered(g, NewConn(fd), ops);
    var s := Run(g, NewConn(fd), ops);
    if s.log.calls < TWO32 {
      forall i | 0 <= i < |s.log.sent|
        ensures s.log.sent[i].packet.frame.fid == FidAt(s.log.sent, i)
      {
      }
    }
    if s.log.calls < TWO32 && |s.log.sent| == s.log.calls {
      forall i | 0 <= i < |s.log.sent|
        ensures s.log.sent[i].packet.frame.fid == i + 1
      {
        assert FidAt(s.log.sent, i) == i + 1;
      }
    }
    if forall i :: 0 <= i < |s.log.sent| ==> s.log.sent[i].pushed == |s.log.sent[i].packet.bytes| {
      WrittenWhole(s.log.sent);
    }
  }

  // -------- an ended connection --------

  ghost predicate Dead(s: Conn) {
    s.crashed || (s.state == CLOSED && s.fd == -1)
  }

  /** CLOSED is absorbing from one call to the next, and silent: nothing more is
      received, dispatched or put on the wire. */
  lemma {:induction false} DeadStaysDead(g: Config, s: Conn, ops: seq<Op>)
    requires Dead(s)
    ensures var t := Run(g, s, ops);
            && Dead(t) && t.log.dispatched == s.log.dispatched && t.log.received == s.log.received
            && t.log.wire == s.log.wire && t.log.closes == s.log.closes
    decreases |ops|
  {
    hide Encode;
    if ops != [] {
      DeadStep(g, s, ops[0]);
      hide Step;
      DeadStaysDead(g, Step(g, s, ops[0]), ops[1..]);
    }
  }

  lemma DeadStep(g: Config, s: Conn, op: Op)
    requires Dead(s)
    ensures var t := Step(g, s, op);
            && Dead(t) && t.log.dispatched == s.log.dispatched && t.log.received == s.log.received
            && t.log.wire == s.log.wire && t.log.closes == s.log.closes
  {
    hide Encode;
    if !s.crashed && op.SendOp? && op.atts != [] {
      var s1 := s.(fid := NextFid(s.fid), log := s.log.(calls := s.log.calls + 1));
      var rest := op.atts[1..];
      match Encode(g.suite, op.frame, true, s.aesKey, op.atts[0].iv, s1.fid)
      case Err(_) =>
        assert Close(g, s1, ENCRYPTION_ERROR, true, rest) == s1;
      case Ok(bytes) =>
        var s2 := Emit(s1, op.frame, bytes, 0);
        assert s.log.wire + bytes[..0] == s.log.wire;
        assert Close(g, s2, SOCKET_ERROR, true, rest) == s2;
    }
  }

  // -------- why a connection was closed --------

  /** A session that can be read. */
  ghost predicate Open(s: Conn) {
    s.state == ACTIVE && !s.crashed && s.fd != -1
  }

  /** t is s closed for `reason`: once a farewell gets out, after the reports of
      those that did not; and never, if none does. */
  ghost predicate ClosesFor(g: Config, s: Conn, t: Conn, reason: CloseReason, atts: seq<Attempt>) {
    && (NoneOut(g, s, atts) ==> t.crashed && t.state == s.state && t.fd == s.fd && t.log.closes == s.log.closes)
    && (forall k: nat :: FirstOut(g, s, atts, k) ==> ClosedAfter(g, s, t, reason, true, atts, k))
  }

  lemma CloseClosesFor(g: Config, s: Conn, s1: Conn, reason: CloseReason, atts: seq<Attempt>)
    requires Closing(s1, reason) && s1.state == s.state && s1.fd == s.fd && s1.fid == s.fid
    requires s1.aesKey == s.aesKey && s1.ssid == s.ssid && s1.log.closes == s.log.closes
    ensures var t := Close(g, s1, reason, true, atts);
            ClosesFor(g, s, t, reason, atts) && t.log.dispatched == s1.log.dispatched
  {
    hide Close, FarewellOut;
    var t := Close(g, s1, reason, true, atts);
    CloseQuiet(g, s1, reason, true, atts);
    SameFarewells(g, s, s1, atts);
    CloseCrashesIff(g, s1, reason, true, atts);
    forall k: nat | FirstOut(g, s, atts, k)
      ensures ClosedAfter(g, s, t, reason, true, atts, k)
    {
      assert FirstOut(g, s1, atts, k);
      CloseAfterKFarewells(g, s1, reason, true, atts, k);
    }
  }

  /** The last thing t emitted, after s, is a whole farewell: an empty frame with
      status 1, OK, under rid 0 and the session's id. */
  ghost predicate SaidFarewell(s: Conn, t: Conn) {
    && |t.log.sent| > |s.log.sent|
    && var e := t.log.sent[|t.log.sent| - 1];
       && e.pushed == |e.packet.bytes| && e.packet.frame.path == [] && e.packet.frame.data == []
       && e.packet.frame.status == 1 && e.packet.frame.rid == 0 && e.packet.frame.flags == 0
       && e.packet.frame.ssid == s.ssid
  }

  lemma FirstFarewellSays(g: Config, s: Conn, reason: CloseReason, invoke: bool, atts: seq<Attempt>)
    requires Closing(s, reason) && atts != [] && FarewellOut(g, s, s.fid, atts[0])
    ensures SaidFarewell(s, Close(g, s, reason, invoke, atts))
  {
    hide Encode;
    assert s.(fid := s.fid) == s;
  }

  lemma FailedFarewellSends(g: Config, s: Conn, a: Attempt)
    requires !FarewellOut(g, s, s.fid, a)
    ensures |AfterFailed(g, s, a).0.log.sent| >= |s.log.sent|
  {
    hide Encode;
  }

  /** The last thing on a connection that is closed with a farewell. */
  lemma {:induction false} FarewellSays(g: Config, s: Conn, reason: CloseReason, invoke: bool, atts: seq<Attempt>,
                                        k: nat)
    requires Closing(s, reason) && FirstOut(g, s, atts, k)
    ensures SaidFarewell(s, Close(g, s, reason, invoke, atts))
    decreases k
  {
    hide Encode, FarewellOut, Close, AfterFailed;
    assert Advance(s.fid, 0) == s.fid;
    if k == 1 {
      FirstFarewellSays(g, s, reason, invoke, atts);
    } else {
      CloseUnfolds(g, s, reason, invoke, atts);
      FailedFarewellSends(g, s, atts[0]);
      var (t, inner) := AfterFailed(g, s, atts[0]);
      forall i | 0 <= i < k - 1
        ensures FarewellOut(g, t, Advance(t.fid, i), atts[1..][i])
             == FarewellOut(g, s, Advance(s.fid, i + 1), atts[i + 1])
      {
        OutOnlyDependsOnFid(g, s, t, atts, i);
      }
      FarewellSays(g, t, inner, true, atts[1..], k - 1);
      CloseAfterKFarewells(g, t, inner, true, atts[1..], k - 1);
    }
  }

  /** The handshake reply says "Connection secured", with status 1, OK, under rid 0
      and the new session's id. */
  lemma ReplySays(g: Config, s: Conn, key: Bytes, ssid: U64, atts: seq<Attempt>)
    requires s.state == HANDSHAKE && !s.crashed && s.fd != -1 && atts != []
    requires ReplyOut(g, s.(aesKey := key, ssid := ssid), atts[0])
    ensures var t := SetAesKey(g, s, key, Some(ssid), atts).conn;
            && t.state == ACTIVE && t.fd == s.fd && t.log.closes == s.log.closes
            && |t.log.sent| == |s.log.sent| + 1
            && var e := t.log.sent[|s.log.sent|];
               && e.pushed == |e.packet.bytes| && e.packet.frame.path == []
               && e.packet.frame.data == Ascii("Connection secured")
               && e.packet.frame.status == 1 && e.packet.frame.rid == 0 && e.packet.frame.flags == 0
               && e.packet.frame.ssid == ssid
  {
    hide Encode;
    SecuredText();
  }

  /** A fault closes for REQUEST_TOO_LONG exactly when the frame it stopped at is
      an FMXP frame that declares more than the limit, otherwise for
      INVALID_REQUEST; the good frames of the batch are dropped either way. */
  lemma FaultReason(g: Config, s: Conn, i: Input)
    requires Open(s) && i.end == WouldBlock
    requires ParseAll(SessionReader(g, s), s.inBuf + Concat(i.chunks)).fault.Some?
    ensures var rest := ParseAll(SessionReader(g, s), s.inBuf + Concat(i.chunks)).rest;
            var t := ReadFd(g, s, i).conn;
            && |rest| >= MIN_FRAME_SIZE && t.log.dispatched == s.log.dispatched
            && (ReadFd(g, s, i).ok <==> !t.crashed)
            && ClosesFor(g, s, t,
                         if ValidateProtocol(rest) && FrameBodySize(rest) + HEADER_SIZE > g.maxFrameSize
                         then REQUEST_TOO_LONG else INVALID_REQUEST, i.atts)
  {
    hide ParseAll, Decode, Close, Concat, FarewellOut, Dispatch, ValidateProtocol, FrameBodySize, ClosesFor;
    var b := s.inBuf + Concat(i.chunks);
    var p := ParseAll(SessionReader(g, s), b);
    ParseAllStops(SessionReader(g, s), b);
    var s1, reason := Append(s, Concat(i.chunks)).(inBuf := p.rest), ReasonFor(p.fault.value);
    CloseQuiet(g, s1, reason, true, i.atts);
    assert ReadFd(g, s, i).conn == Close(g, s1, reason, true, i.atts);
    CloseClosesFor(g, s, s1, reason, i.atts);
  }

  /** A frame of another session or with an old id closes for INVALID_REQUEST, the
      frames before it having been dispatched. */
  lemma RefusalReason(g: Config, s: Conn, i: Input)
    requires Open(s) && i.end == WouldBlock
    requires var p := ParseAll(SessionReader(g, s), s.inBuf + Concat(i.chunks));
             p.fault.None? && Accepted(s.ssid, s.lastCliFid, p.frames) != p.frames
    ensures var p := ParseAll(SessionReader(g, s), s.inBuf + Concat(i.chunks));
            var o := ReadFd(g, s, i);
            && !o.ok && ClosesFor(g, s, o.conn, INVALID_REQUEST, i.atts)
            && o.conn.log.dispatched == s.log.dispatched + Accepted(s.ssid, s.lastCliFid, p.frames)
  {
    hide ParseAll, Close, Concat, FarewellOut, Dispatch, Accepted, ClosesFor;
    var p := ParseAll(SessionReader(g, s), s.inBuf + Concat(i.chunks));
    var s1 := Append(s, Concat(i.chunks)).(inBuf := p.rest);
    DispatchIs(g, s1, p.frames, i.atts);
    CloseClosesFor(g, s, Delivered(s1, Accepted(s.ssid, s.lastCliFid, p.frames)), INVALID_REQUEST, i.atts);
  }

  /** An error of recv closes for SOCKET_ERROR; what it came with is not parsed. */
  lemma RecvErrorReason(g: Config, s: Conn, i: Input)
    requires s.state != CLOSED && !s.crashed && s.fd != -1 && i.end == Failed
    ensures var o := ReadFd(g, s, i);
            && !o.ok && ClosesFor(g, s, o.conn, SOCKET_ERROR, i.atts)
            && o.conn.log.dispatched == s.log.dispatched
            && o.conn.log.received == s.log.received + Concat(i.chunks)
  {
    hide Close, Concat, FarewellOut, ClosesFor;
    var s1 := Append(s, Concat(i.chunks));
    CloseQuiet(g, s1, SOCKET_ERROR, true, i.atts);
    CloseClosesFor(g, s, s1, SOCKET_ERROR, i.atts);
  }

  /** Reading without a descriptor fails at once: SOCKET_ERROR, nothing sent. */
  lemma NoSocketReason(g: Config, s: Conn, i: Input)
    requires s.state != CLOSED && !s.crashed && s.fd == -1
    ensures var o := ReadFd(g, s, i);
            && !o.ok && !o.conn.crashed && o.conn.state == CLOSED && o.conn.fd == -1
            && o.conn.log == s.log.(closes := o.conn.log.closes)
            && o.conn.log.closes == s.log.closes + if g.notifies then [SOCKET_ERROR] else []
  {
  }

  /** A failing random generator, after a good payload, closes for
      ENCRYPTION_ERROR with the key already set. */
  lemma NoSessionIdReason(g: Config, s: Conn, sealedKey: Bytes, now: U32, atts: seq<Attempt>)
    requires s.state == HANDSHAKE && !s.crashed && s.fd != -1 && GoodPayload(g, sealedKey, now)
    ensures var o := Handshake(g, s, sealedKey, now, None, atts);
            && !o.ok
            && ClosesFor(g, s.(aesKey := g.suite.rsaOpen(sealedKey).value[..KEY_SIZE]), o.conn, ENCRYPTION_ERROR, atts)
  {
    hide Close, FarewellOut, ClosesFor, Timely;
    var keyed := s.(aesKey := g.suite.rsaOpen(sealedKey).value[..KEY_SIZE]);
    CloseClosesFor(g, keyed, keyed, ENCRYPTION_ERROR, atts);
  }

  /** A handshake reply that fails is reported like any failed send, and the
      connection is ACTIVE afterwards all the same. */
  lemma ReplyFailureReason(g: Config, s: Conn, key: Bytes, ssid: U64, atts: seq<Attempt>, k: nat)
    requires s.state == HANDSHAKE && !s.crashed && s.fd != -1 && atts != []
    requires var keyed := s.(aesKey := key, ssid := ssid);
             !ReplyOut(g, keyed, atts[0]) && FirstOut(g, keyed.(fid := NextFid(s.fid)), atts[1..], k)
    ensures var t := SetAesKey(g, s, key, Some(ssid), atts).conn;
            && !t.crashed && t.state == ACTIVE && t.fd == -1
            && t.log.closes == s.log.closes + if g.notifies then Nested(key, atts, k) else []
  {
    hide Encode, FarewellOut, Send;
    var keyed := s.(aesKey := key, ssid := ssid);
    var s2 := keyed.(log := s.log.(prefix := |s.log.received| - Min(|s.inBuf|, |s.log.received|)));
    assert !FrameOut(g, s2, SecuredFrame(s2), atts[0]);
    SameFarewells(g, keyed.(fid := NextFid(s.fid)), s2.(fid := NextFid(s.fid)), atts[1..]);
    SendFailureCloses(g, s2, SecuredFrame(s2), atts, k);
  }

  /** The peer's end of stream closes naturally and silently, and what arrived
      with it is not looked at. */
  lemma EofClosesSilently(g: Config, s: Conn, i: Input)
    requires s.state != CLOSED && !s.crashed && s.fd != -1 && i.end == Eof
    ensures var o := ReadFd(g, s, i);
            && !o.ok && o.conn.state == CLOSED && o.conn.fd == -1 && !o.conn.crashed
            && o.conn.log.dispatched == s.log.dispatched && o.conn.log.wire == s.log.wire && o.conn.fid == s.fid
            && o.conn.log.received == s.log.received + Concat(i.chunks)
            && (g.notifies ==> o.conn.log.closes == s.log.closes + [NATURAL])
  {
    hide Concat, Send, Process;
    assert Close(g, Append(s, Concat(i.chunks)), NATURAL, true, i.atts)
        == Finish(g, Append(s, Concat(i.chunks)), NATURAL, true);
  }

  // -------- the handshake --------

  /** The timestamp must be 0 to 60 seconds ahead of the server's clock ... */
  lemma TimelyIff(timestamp: U32, now: U32)
    ensures Timely(timestamp, now) <==> exists d: nat :: d <= 60 && timestamp == Advance(now, d)
  {
    if Timely(timestamp, now) {
      var d := (timestamp - now) % TWO32;
      assert timestamp == Advance(now, d);
    }
    if d: nat :| d <= 60 && timestamp == Advance(now, d) {
      assert (timestamp - now) % TWO32 == d;
    }
  }

  /** ... so a handshake that took any time at all is refused, where the
      repository's README.md accepts it up to an age of 60 seconds. */
  lemma AgedHandshakeIsRefused(sent: U32, age: nat)
    requires age < TWO32
    ensures Timely(sent, Advance(sent, age)) <==> age == 0 || age >= TWO32 - 60
  {
    var d := (sent - Advance(sent, age)) % TWO32;
    assert d == if age == 0 then 0 else TWO32 - age;
  }

  /** What the payload of the client's first frame must be. */
  predicate GoodPayload(g: Config, sealedKey: Bytes, now: U32) {
    match g.suite.rsaOpen(sealedKey)
    case None => false
    case Some(plain) => |plain| == KEY_SIZE + 4 && Timely(PtrToU32(plain[KEY_SIZE..]), now)
  }

  predicate ReplyOut(g: Config, s: Conn, a: Attempt) {
    match Encode(g.suite, SecuredFrame(s), true, s.aesKey, a.iv, NextFid(s.fid))
    case Err(_) => false
    case Ok(bytes) => PushedTo(s.fd, bytes, a) == |bytes|
  }

  /** Before the key is set a good payload makes the connection ACTIVE, and any
      other one is never refused cleanly: closing needs the key, so the
      close/send recursion uses up every stack. */
  lemma HandshakeAcceptsIff(g: Config, s: Conn, sealedKey: Bytes, now: U32, ssid: U64, atts: seq<Attempt>)
    requires s.state == HANDSHAKE && !s.crashed && s.fd != -1 && s.aesKey == []
    ensures var t := Handshake(g, s, sealedKey, now, Some(ssid), atts).conn;
            && (t.state == ACTIVE ==> GoodPayload(g, sealedKey, now))
            && (GoodPayload(g, sealedKey, now) && !t.crashed ==>
                  t.state == ACTIVE && t.ssid == ssid
                  && t.aesKey == g.suite.rsaOpen(sealedKey).value[..KEY_SIZE])
            && (!GoodPayload(g, sealedKey, now) ==> t.crashed && t.state == HANDSHAKE && t.fd == s.fd)
  {
    hide Close, Send, Timely;
    CloseWithoutKey(g, s, ENCRYPTION_ERROR, true, atts);
    if GoodPayload(g, sealedKey, now) {
      var s2 := s.(aesKey := g.suite.rsaOpen(sealedKey).value[..KEY_SIZE], ssid := ssid,
                   log := s.log.(prefix := |s.log.received| - Min(|s.inBuf|, |s.log.received|)));
      SendQuiet(g, s2, SecuredFrame(s2), atts);
    }
  }

  /** The reply, or else some farewell after it, gets out whole. */
  ghost predicate AnswerOut(g: Config, s: Conn, atts: seq<Attempt>) {
    && atts != []
    && (|| ReplyOut(g, s, atts[0])
        || exists i :: 1 <= i < |atts| && FarewellOut(g, s, Advance(s.fid, i), atts[i]))
  }

  /** What sending the reply comes to: it returns iff the reply or some farewell
      after it gets out, and the connection is closed unless the reply did. */
  lemma ReplyIs(g: Config, s: Conn, atts: seq<Attempt>)
    requires s.state != CLOSED && !s.crashed && s.fd != -1
    ensures var t := Send(g, s, SecuredFrame(s), atts);
            && (t.crashed <==> !AnswerOut(g, s, atts))
            && (t.crashed ==> t.state == s.state && t.fd == s.fd && t.log.closes == s.log.closes)
            && (!t.crashed ==> (t.fd == -1 <==> !ReplyOut(g, s, atts[0])))
  {
    hide Encode, FarewellOut, Close;
    if atts != [] {
      var s1 := s.(fid := NextFid(s.fid), log := s.log.(calls := s.log.calls + 1));
      match Encode(g.suite, SecuredFrame(s), true, s.aesKey, atts[0].iv, s1.fid)
      case Err(_) => ReplyLost(g, s, s1, ENCRYPTION_ERROR, atts);
      case Ok(bytes) =>
        var s2 := Emit(s1, SecuredFrame(s), bytes, PushedTo(s.fd, bytes, atts[0]));
        ReplyLost(g, s, s2, SOCKET_ERROR, atts);
    }
  }

  lemma ReplyLost(g: Config, s: Conn, t: Conn, reason: CloseReason, atts: seq<Attempt>)
    requires atts != [] && Closing(t, reason)
    requires t.fid == NextFid(s.fid) && t.aesKey == s.aesKey && t.ssid == s.ssid && t.fd == s.fd
    ensures var r := Close(g, t, reason, true, atts[1..]);
            && (r.crashed <==> !exists i :: 1 <= i < |atts| && FarewellOut(g, s, Advance(s.fid, i), atts[i]))
            && (r.crashed ==> r.state == t.state && r.fd == t.fd && r.log.closes == t.log.closes)
            && (!r.crashed ==> r.fd == -1)
  {
    hide FarewellOut, Close;
    CloseCrashesIff(g, t, reason, true, atts[1..]);
    forall i | 0 <= i < |atts| - 1
      ensures FarewellOut(g, t, Advance(t.fid, i), atts[1..][i])
              == FarewellOut(g, s, Advance(s.fid, i + 1), atts[i + 1])
    {
      OutOnlyDependsOnFid(g, s, t, atts, i);
    }
    if i :| 1 <= i < |atts| && FarewellOut(g, s, Advance(s.fid, i), atts[i]) {
      assert FarewellOut(g, t, Advance(t.fid, i - 1), atts[1..][i - 1]);
    }
  }

  /** ACTIVE is set even if the reply could not be sent: setting the key returns
      iff the reply or some farewell after it gets out, and the descriptor is gone
      then exactly when it was not the reply. */
  lemma ActiveWithoutSocketIff(g: Config, s: Conn, key: Bytes, ssid: U64, atts: seq<Attempt>)
    requires s.state == HANDSHAKE && !s.crashed && s.fd != -1
    ensures var keyed := s.(aesKey := key, ssid := ssid);
            var t := SetAesKey(g, s, key, Some(ssid), atts).conn;
            && (t.crashed <==> !AnswerOut(g, keyed, atts))
            && (!t.crashed ==> t.state == ACTIVE && (t.fd == -1 <==> !ReplyOut(g, keyed, atts[0])))
  {
    hide FarewellOut, Send, Encode;
    var keyed := s.(aesKey := key, ssid := ssid);
    var s2 := keyed.(log := s.log.(prefix := |s.log.received| - Min(|s.inBuf|, |s.log.received|)));
    SameFarewells(g, keyed, s2, atts);
    ReplyIs(g, s2, atts);
  }

  /** What a read in HANDSHAKE does to the connection. */
  datatype Fate = Waits | Opens | Closes | Crashes

  /** Told by the bytes, the clock and the outcomes of the sends. */
  ghost function FateOf(g: Config, s: Conn, i: Input): Fate {
    match i.end
    case Eof => Closes
    case Failed => Crashes
    case WouldBlock =>
      match ParseOne(PlainReader(g.suite, g.maxFrameSize), s.inBuf + Concat(i.chunks))
      case Need => Waits
      case Bad(_) => Crashes
      case Got(f, _) =>
        if !GoodPayload(g, f.data, i.now) then Crashes
        else
          var keyed := s.(aesKey := g.suite.rsaOpen(f.data).value[..KEY_SIZE]);
          match i.ssid
          case None => if NoneOut(g, keyed, i.atts) then Crashes else Closes
          case Some(id) => if AnswerOut(g, keyed.(ssid := id), i.atts) then Opens else Crashes
  }

  /** What readFd does in HANDSHAKE, by the front of the buffer. */
  lemma ReadInHandshake(g: Config, s: Conn, i: Input)
    requires s.state == HANDSHAKE && !s.crashed && s.fd != -1 && i.end == WouldBlock
    ensures var s1 := Append(s, Concat(i.chunks));
            var one := ParseOne(PlainReader(g.suite, g.maxFrameSize), s1.inBuf);
            && (one.Need? ==> ReadFd(g, s, i).conn == s1)
            && (one.Got? ==>
                  ReadFd(g, s, i) == Handshake(g, s1.(inBuf := s1.inBuf[one.size..]), one.frame.data, i.now,
                        i.ssid, i.atts))
  {
    hide ParseOne, PlainReader, Handshake, Close, Concat;
  }

  /** Every read before the key is set has one of four ends. Only the peer's end of
      stream closes without a key; a malformed first frame, a bad payload and a
      socket error exhaust every stack, since the farewell cannot be sealed. */
  lemma HandshakeReadIs(g: Config, s: Conn, i: Input)
    requires s.state == HANDSHAKE && !s.crashed && s.fd != -1 && s.aesKey == []
    ensures var t := ReadFd(g, s, i).conn;
            && (ReadFd(g, s, i).ok <==> FateOf(g, s, i) in {Waits, Opens})
            && match FateOf(g, s, i)
            case Waits => t == Append(s, Concat(i.chunks))
            case Opens => t.state == ACTIVE && !t.crashed && Some(t.ssid) == i.ssid && |t.aesKey| == KEY_SIZE
            case Closes => t.state == CLOSED && !t.crashed && t.fd == -1
            case Crashes => t.crashed && t.state == HANDSHAKE && t.fd == s.fd && t.log.closes == s.log.closes
  {
    hide ParseOne, PlainReader, Close, Send, Concat, Timely, FarewellOut, Handshake, ReplyOut;
    var s1 := Append(s, Concat(i.chunks));
    CloseWithoutKey(g, s1, SOCKET_ERROR, true, i.atts);
    CloseQuiet(g, s1, NATURAL, true, i.atts);
    if i.end == Eof {
      EofClosesSilently(g, s, i);
    }
    if i.end == WouldBlock {
      match ParseOne(PlainReader(g.suite, g.maxFrameSize), s1.inBuf)
      case Need =>
      case Bad(fault) => CloseWithoutKey(g, s1, ReasonFor(fault), true, i.atts);
      case Got(f, size) =>
        var s2 := s1.(inBuf := s1.inBuf[size..]);
        PayloadFate(g, s, s2, f.data, i);
    }
  }

  lemma PayloadFate(g: Config, s: Conn, s2: Conn, sealedKey: Bytes, i: Input)
    requires s2.state == HANDSHAKE && !s2.crashed && s2.fd != -1 && s2.aesKey == []
    requires s2.fd == s.fd && s2.fid == s.fid && s2.ssid == s.ssid && s2.log.closes == s.log.closes
    ensures var o := Handshake(g, s2, sealedKey, i.now, i.ssid, i.atts);
            var t := o.conn;
            && (o.ok <==> GoodPayload(g, sealedKey, i.now) && i.ssid.Some? && !t.crashed)
            && if !GoodPayload(g, sealedKey, i.now) then
              t.crashed && t.state == HANDSHAKE && t.fd == s.fd && t.log.closes == s.log.closes
            else
              var keyed := s.(aesKey := g.suite.rsaOpen(sealedKey).value[..KEY_SIZE]);
              && |keyed.aesKey| == KEY_SIZE
              && (i.ssid.None? ==> t.crashed == NoneOut(g, keyed, i.atts))
              && (i.ssid.Some? ==> t.crashed == !AnswerOut(g, keyed.(ssid := i.ssid.value), i.atts))
              && (t.crashed ==> t.state == HANDSHAKE && t.fd == s.fd && t.log.closes == s.log.closes)
              && (!t.crashed && i.ssid.None? ==> t.state == CLOSED && t.fd == -1)
              && (!t.crashed && i.ssid.Some? ==>
                    t.state == ACTIVE && t.ssid == i.ssid.value && |t.aesKey| == KEY_SIZE)
  {
    hide Close, Send, Timely, FarewellOut, Encode;
    if !GoodPayload(g, sealedKey, i.now) {
      CloseWithoutKey(g, s2, ENCRYPTION_ERROR, true, i.atts);
    } else {
      var keyed := s.(aesKey := g.suite.rsaOpen(sealedKey).value[..KEY_SIZE]);
      var s3 := s2.(aesKey := keyed.aesKey);
      if i.ssid.None? {
        SameFarewells(g, keyed, s3, i.atts);
        CloseCrashesIff(g, s3, ENCRYPTION_ERROR, true, i.atts);
      } else {
        var s4 := s3.(ssid := i.ssid.value, log := s3.log.(prefix := |s2.log.received| - Min(|s2.inBuf|,
                |s2.log.received|)));
        SameFarewells(g, keyed.(ssid := i.ssid.value), s4, i.atts);
        ReplyIs(g, s4, i.atts);
        SendQuiet(g, s4, SecuredFrame(s4), i.atts);
      }
    }
  }

  // -------- what never changes again --------

  /** Once out of HANDSHAKE the session's key and id are fixed; a descriptor is
      only ever given up; what was dispatched stays dispatched. */
  ghost predicate Continues(s: Conn, t: Conn) {
    && (t.fd == s.fd || t.fd == -1)
    && s.log.dispatched <= t.log.dispatched
    && (s.state != HANDSHAKE ==> t.state != HANDSHAKE && t.aesKey == s.aesKey && t.ssid == s.ssid)
    && (s.state == HANDSHAKE ==> t.log.dispatched == s.log.dispatched)
  }

  lemma ReadContinues(g: Config, s: Conn, i: Input)
    ensures Continues(s, ReadFd(g, s, i).conn)
  {
    hide Close, Send, Dispatch, ParseAll, ParseOne, SealedReader, PlainReader, Accepted;
    CloseQuiet(g, s, SOCKET_ERROR, true, i.atts);
    var s1 := Append(s, Concat(i.chunks));
    CloseQuiet(g, s1, NATURAL, true, i.atts);
    CloseQuiet(g, s1, SOCKET_ERROR, true, i.atts);
    if s.fd != -1 && i.end == WouldBlock {
      ProcessContinues(g, s1, i);
    }
  }

  lemma ProcessContinues(g: Config, s: Conn, i: Input)
    ensures Continues(s, Process(g, s, i).conn)
  {
    hide Close, Dispatch, Handshake, ParseAll, ParseOne, ReaderOf, Accepted;
    if s.state == HANDSHAKE {
      match ParseOne(ReaderOf(g, s), s.inBuf)
      case Need =>
      case Bad(fault) => CloseQuiet(g, s, ReasonFor(fault), true, i.atts);
      case Got(f, size) => HandshakeContinues(g, s.(inBuf := s.inBuf[size..]), f.data, i.now, i.ssid, i.atts);
    } else {
      var p := ParseAll(ReaderOf(g, s), s.inBuf);
      var s1 := s.(inBuf := p.rest);
      if p.fault.Some? {
        CloseQuiet(g, s1, ReasonFor(p.fault.value), true, i.atts);
        DispatchContinues(g, Close(g, s1, ReasonFor(p.fault.value), true, i.atts), p.frames, i.atts);
      }
      DispatchContinues(g, s1, p.frames, i.atts);
    }
  }

  lemma DispatchContinues(g: Config, s: Conn, fs: seq<Frame>, atts: seq<Attempt>)
    ensures Continues(s.(state := ACTIVE), Dispatch(g, s.(state := ACTIVE), fs, atts).conn)
  {
    hide Close, Dispatch, Accepted;
    var s1 := s.(state := ACTIVE);
    DispatchIs(g, s1, fs, atts);
    CloseQuiet(g, Delivered(s1, Accepted(s1.ssid, s1.lastCliFid, fs)), INVALID_REQUEST, true, atts);
  }

  lemma HandshakeContinues(g: Config, s: Conn, sealedKey: Bytes, now: U32, ssid: Option<U64>, atts: seq<Attempt>)
    requires s.state == HANDSHAKE
    ensures Continues(s, Handshake(g, s, sealedKey, now, ssid, atts).conn)
  {
    hide Close, Send, Timely;
    CloseQuiet(g, s, ENCRYPTION_ERROR, true, atts);
    match g.suite.rsaOpen(sealedKey)
    case None =>
    case Some(plain) =>
      if |plain| == KEY_SIZE + 4 {
        var s1 := s.(aesKey := plain[..KEY_SIZE]);
        CloseQuiet(g, s1, ENCRYPTION_ERROR, true, atts);
        if ssid.Some? {
          var s2 := s1.(ssid := ssid.value, log := s1.log.(prefix := |s.log.received| - Min(|s.inBuf|,
                  |s.log.received|)));
          SendQuiet(g, s2, SecuredFrame(s2), atts);
        }
      }
  }

  /** readFd reports false only of a connection that it has closed. */
  lemma OkUnlessClosed(g: Config, s: Conn, i: Input)
    requires !s.crashed
    ensures var o := ReadFd(g, s, i); o.ok || o.conn.crashed || o.conn.state == CLOSED
  {
    hide Close, Send, Dispatch, ParseOne, ParseAll, ReaderOf, Timely, Accepted, Concat;
    CloseQuiet(g, s, SOCKET_ERROR, true, i.atts);
    var s1 := Append(s, Concat(i.chunks));
    CloseQuiet(g, s1, NATURAL, true, i.atts);
    CloseQuiet(g, s1, SOCKET_ERROR, true, i.atts);
    var (s2, frames) := Parse(g, s1, i.atts);
    DispatchIs(g, s2, frames, i.atts);
    CloseQuiet(g, Delivered(s2, Accepted(s2.ssid, s2.lastCliFid, frames)), INVALID_REQUEST, true, i.atts);
    CloseQuiet(g, s2, ENCRYPTION_ERROR, true, i.atts);
    if frames != [] && g.suite.rsaOpen(frames[0].data).Some?
          && |g.suite.rsaOpen(frames[0].data).value| == KEY_SIZE + 4 {
      CloseQuiet(g, s2.(aesKey := g.suite.rsaOpen(frames[0].data).value[..KEY_SIZE]), ENCRYPTION_ERROR, true, i.atts);
    }
  }
}
