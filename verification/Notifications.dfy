/** How often _onClose is called over the life of a connection
    (server/structures.cpp:31-45, 49-56, 132-152). It is meant to be once; the
    count is told here by the sends that failed. */
module Notifications {
  import opened Encoders
  import opened Crypto
  import opened Frames
  import opened Parsing
  import opened ServerSpec
  import opened ServerLaws
  import opened ServerTheorems

  /** The emissions that got out whole. */
  function Completed(es: seq<Emission>): (n: nat)
    ensures n <= |es|
  {
    if es == [] then 0
    else
      var e := es[|es| - 1];
      Completed(es[..|es| - 1]) + if e.pushed == |e.packet.bytes| then 1 else 0
  }

  /** The sendFrame calls that did not get their frame out. */
  function Failures(s: Conn): int {
    s.log.calls - Completed(s.log.sent)
  }

  lemma CompletedAppend(es: seq<Emission>, e: Emission)
    ensures Completed(es + [e]) == Completed(es) + if e.pushed == |e.packet.bytes| then 1 else 0
  {
    assert (es + [e])[..|es|] == es;
  }

  /** From s to t, `own` notifications came on top of one for each failed send. */
  ghost predicate Counted(s: Conn, t: Conn, own: nat) {
    && |t.log.closes| - |s.log.closes| == Failures(t) - Failures(s) + own
    && Failures(t) >= Failures(s)
  }

  /** A send notifies once for each send that fails in it, and closes iff one does. */
  lemma {:induction false} SendCounts(g: Config, s: Conn, f: Frame, atts: seq<Attempt>)
    requires g.notifies && s.state != CLOSED && !s.crashed
    ensures var t := Send(g, s, f, atts);
            !t.crashed ==>
              && Counted(s, t, 0)
              && (if Failures(t) > Failures(s) then t.state == CLOSED && t.fd == -1
                  else t.state == s.state && t.fd == s.fd)
    decreases |atts|, 0
  {
    hide Encode, Completed, Close;
    if atts != [] {
      var s1 := s.(fid := NextFid(s.fid), log := s.log.(calls := s.log.calls + 1));
      match Encode(g.suite, f, true, s.aesKey, atts[0].iv, s1.fid)
      case Err(_) =>
        CloseCounts(g, s1, ENCRYPTION_ERROR, true, atts[1..]);
        CloseQuiet(g, s1, ENCRYPTION_ERROR, true, atts[1..]);
      case Ok(bytes) =>
        var n := PushedTo(s.fd, bytes, atts[0]);
        var s2 := Emit(s1, f, bytes, n);
        CompletedAppend(s.log.sent, s2.log.sent[|s.log.sent|]);
        CloseCounts(g, s2, SOCKET_ERROR, true, atts[1..]);
        CloseQuiet(g, s2, SOCKET_ERROR, true, atts[1..]);
    }
  }

  /** A close notifies once more than sends fail in it. */
  lemma {:induction false} CloseCounts(g: Config, s: Conn, reason: CloseReason, invoke: bool, atts: seq<Attempt>)
    requires g.notifies && s.state != CLOSED && !s.crashed
    ensures var t := Close(g, s, reason, invoke, atts);
            !t.crashed ==> t.state == CLOSED && t.fd == -1 && Counted(s, t, if invoke then 1 else 0)
    decreases |atts|, 1
  {
    hide Send, Completed;
    SendCounts(g, s, Farewell(s), atts);
  }

  /** While a connection is not CLOSED. An ACTIVE one without descriptor is one
      whose handshake reply failed; it has been notified already. */
  ghost predicate Tallied(s: Conn) {
    && s.state != CLOSED && !s.crashed
    && |s.log.closes| == Failures(s)
    && (s.fd != -1 ==> Failures(s) == 0)
    && (s.fd == -1 ==> s.state == ACTIVE && Failures(s) >= 1)
  }

  /** Whether a step that closes does so by a close of its own, and announces it. */
  predicate Announces(op: Op) {
    op.Read? || (op.CloseOp? && op.invoke)
  }

  /** What a step makes of such a connection. */
  ghost predicate Tally(s: Conn, t: Conn, own: nat) {
    && !t.crashed && Failures(t) >= Failures(s)
    && (if t.state == CLOSED then |t.log.closes| == Failures(t) + own else Tallied(t))
  }

  lemma SameTally(s: Conn, t: Conn)
    requires Tallied(s) && t.state != CLOSED && !t.crashed && t.fd == s.fd && (t.fd == -1 ==> t.state == ACTIVE)
    requires t.log.calls == s.log.calls && t.log.sent == s.log.sent && t.log.closes == s.log.closes
    ensures Tallied(t) && Failures(t) == Failures(s)
  {
    hide Completed;
  }

  lemma CloseTally(g: Config, s: Conn, reason: CloseReason, invoke: bool, atts: seq<Attempt>)
    requires g.notifies && Tallied(s)
    ensures var t := Close(g, s, reason, invoke, atts);
            !t.crashed ==> t.state == CLOSED && Tally(s, t, if invoke then 1 else 0)
  {
    hide Close, Completed;
    CloseCounts(g, s, reason, invoke, atts);
  }

  lemma DispatchTally(g: Config, s: Conn, fs: seq<Frame>, atts: seq<Attempt>)
    requires g.notifies && Tallied(s)
    ensures var t := Dispatch(g, s, fs, atts).conn;
            !t.crashed ==> Tally(s, t, 1)
  {
    hide Close, Completed, Dispatch, Accepted;
    DispatchIs(g, s, fs, atts);
    var a := Accepted(s.ssid, s.lastCliFid, fs);
    SameTally(s, Delivered(s, fs));
    SameTally(s, Delivered(s, a));
    CloseTally(g, Delivered(s, a), INVALID_REQUEST, true, atts);
  }

  lemma HandshakeTally(g: Config, s: Conn, sealedKey: Bytes, now: U32, ssid: Option<U64>, atts: seq<Attempt>)
    requires g.notifies && Tallied(s) && s.state == HANDSHAKE
    ensures var t := Handshake(g, s, sealedKey, now, ssid, atts).conn;
            !t.crashed ==> Tally(s, t, 1)
  {
    hide Close, Send, Completed, Timely;
    CloseTally(g, s, ENCRYPTION_ERROR, true, atts);
    match g.suite.rsaOpen(sealedKey)
    case None =>
    case Some(plain) =>
      if |plain| == KEY_SIZE + 4 {
        var s1 := s.(aesKey := plain[..KEY_SIZE]);
        SameTally(s, s1);
        CloseTally(g, s1, ENCRYPTION_ERROR, true, atts);
        if ssid.Some? {
          var s2 := s1.(ssid := ssid.value, log := s1.log.(prefix := |s.log.received| - Min(|s.inBuf|,
                  |s.log.received|)));
          SameTally(s1, s2);
          SendCounts(g, s2, SecuredFrame(s2), atts);
        }
      }
  }

  lemma ProcessTally(g: Config, s: Conn, i: Input)
    requires g.notifies && Tallied(s)
    ensures var t := Process(g, s, i).conn;
            !t.crashed ==> Tally(s, t, 1)
  {
    hide Close, Dispatch, Handshake, ParseOne, ParseAll, ReaderOf, Completed;
    var r := ReaderOf(g, s);
    if s.state == HANDSHAKE {
      match ParseOne(r, s.inBuf)
      case Need =>
      case Bad(fault) => CloseTally(g, s, ReasonFor(fault), true, i.atts);
      case Got(f, size) =>
        var s1 := s.(inBuf := s.inBuf[size..]);
        SameTally(s, s1);
        HandshakeTally(g, s1, f.data, i.now, i.ssid, i.atts);
    } else {
      var p := ParseAll(r, s.inBuf);
      var s1 := s.(inBuf := p.rest);
      SameTally(s, s1);
      DispatchTally(g, s1, p.frames, i.atts);
      if p.fault.Some? {
        CloseTally(g, s1, ReasonFor(p.fault.value), true, i.atts);
      }
    }
  }

  /** Every step of every live connection: if it closes, notifications so far are
      the sends that failed so far, and one more if the step announces itself. */
  lemma StepTally(g: Config, s: Conn, op: Op)
    requires g.notifies && Tallied(s) && !Step(g, s, op).crashed
    ensures Tally(s, Step(g, s, op), if Announces(op) then 1 else 0)
  {
    hide Close, Send, Process, Completed, Concat;
    match op
    case SendOp(f, atts) => SendCounts(g, s, f, atts);
    case CloseOp(reason, invoke, atts) => CloseTally(g, s, reason, invoke, atts);
    case Read(i) =>
      CloseTally(g, s, SOCKET_ERROR, true, i.atts);
      var s1 := Append(s, Concat(i.chunks));
      SameTally(s, s1);
      CloseTally(g, s1, NATURAL, true, i.atts);
      CloseTally(g, s1, SOCKET_ERROR, true, i.atts);
      ProcessTally(g, s1, i);
  }

  /** A run that ends CLOSED closed at some step n for good; the notifications of
      the whole run are the sends that had failed by the end of that step, and one
      more if it announced itself. */
  lemma {:induction false} RunTally(g: Config, s: Conn, ops: seq<Op>) returns (n: nat)
    requires g.notifies && Tallied(s) && Run(g, s, ops).state == CLOSED && !Run(g, s, ops).crashed
    ensures n < |ops| && Run(g, s, ops[..n]).state != CLOSED && Run(g, s, ops[..n + 1]).state == CLOSED
    ensures |Run(g, s, ops).log.closes| == Failures(Run(g, s, ops[..n + 1])) + if Announces(ops[n]) then 1 else 0
    decreases |ops|
  {
    hide Step, Completed;
    var t := Step(g, s, ops[0]);
    assert ops[..1] == [ops[0]] && ops[..1][1..] == [];
    assert Run(g, s, ops[..1]) == t;
    if t.crashed {
      CrashedStays(g, t, ops[1..]);
    } else {
      StepTally(g, s, ops[0]);
      if t.state == CLOSED {
        n := 0;
        StepClosed(g, s, ops[0]);
        DeadStaysDead(g, t, ops[1..]);
      } else {
        var m := RunTally(g, t, ops[1..]);
        n := m + 1;
        assert ops[..n][1..] == ops[1..][..m] && ops[..n + 1][1..] == ops[1..][..m + 1];
      }
    }
  }

  lemma {:induction false} CrashedStays(g: Config, s: Conn, ops: seq<Op>)
    requires s.crashed
    ensures Run(g, s, ops) == s
    decreases |ops|
  {
    hide ReadFd, Send, Close;
    if ops != [] {
      CrashedStays(g, s, ops[1..]);
    }
  }

  lemma StepClosed(g: Config, s: Conn, op: Op)
    requires s.state != CLOSED && !s.crashed && Step(g, s, op).state == CLOSED && !Step(g, s, op).crashed
    ensures Step(g, s, op).fd == -1
  {
    hide Close, Send, Dispatch, Handshake, ParseOne, ParseAll, ReaderOf, Concat;
    match op
    case SendOp(f, atts) => SendQuiet(g, s, f, atts);
    case CloseOp(reason, invoke, atts) => CloseQuiet(g, s, reason, invoke, atts);
    case Read(i) =>
      CloseQuiet(g, s, SOCKET_ERROR, true, i.atts);
      var s1 := Append(s, Concat(i.chunks));
      CloseQuiet(g, s1, NATURAL, true, i.atts);
      CloseQuiet(g, s1, SOCKET_ERROR, true, i.atts);
      ProcessClosed(g, s1, i);
  }

  lemma ProcessClosed(g: Config, s: Conn, i: Input)
    requires s.state != CLOSED && !s.crashed
    ensures var t := Process(g, s, i).conn; !t.crashed && t.state == CLOSED ==> t.fd == -1
  {
    hide Close, Send, Dispatch, ParseOne, ParseAll, ReaderOf, Timely, Accepted;
    var r := ReaderOf(g, s);
    if s.state == HANDSHAKE {
      match ParseOne(r, s.inBuf)
      case Need =>
      case Bad(fault) => CloseQuiet(g, s, ReasonFor(fault), true, i.atts);
      case Got(f, size) =>
        var s1 := s.(inBuf := s.inBuf[size..]);
        CloseQuiet(g, s1, ENCRYPTION_ERROR, true, i.atts);
        if g.suite.rsaOpen(f.data).Some? && |g.suite.rsaOpen(f.data).value| == KEY_SIZE + 4 {
          CloseQuiet(g, s1.(aesKey := g.suite.rsaOpen(f.data).value[..KEY_SIZE]), ENCRYPTION_ERROR, true, i.atts);
        }
    } else {
      var p := ParseAll(r, s.inBuf);
      var s1 := s.(inBuf := p.rest);
      DispatchIs(g, s1, p.frames, i.atts);
      CloseQuiet(g, Delivered(s1, Accepted(s1.ssid, s1.lastCliFid, p.frames)), INVALID_REQUEST, true, i.atts);
      if p.fault.Some? {
        CloseQuiet(g, s1, ReasonFor(p.fault.value), true, i.atts);
      }
    }
  }

  /** Over a whole run: a connection that ends CLOSED was notified exactly once iff
      no send of it failed before it was closed, other than the one that closed it
      if it was closed by a send. */
  lemma NotifiedOnceIff(g: Config, fd: int, ops: seq<Op>) returns (n: nat)
    requires g.notifies && fd != -1
    requires Run(g, NewConn(fd), ops).state == CLOSED && !Run(g, NewConn(fd), ops).crashed
    ensures n < |ops| && Run(g, NewConn(fd), ops[..n]).state != CLOSED
            && Run(g, NewConn(fd), ops[..n + 1]).state == CLOSED
    ensures |Run(g, NewConn(fd), ops).log.closes| == 1
            <==> Failures(Run(g, NewConn(fd), ops[..n + 1])) == if Announces(ops[n]) then 0 else 1
  {
    hide Run;
    assert Tallied(NewConn(fd));
    n := RunTally(g, NewConn(fd), ops);
  }

  /** Once the handshake reply has failed, whatever closes the connection
      notifies a second time. */
  lemma FailedReplyNotifiesAgain(g: Config, s: Conn, op: Op)
    requires g.notifies && Tallied(s) && s.fd == -1 && (op.CloseOp? ==> op.invoke)
    requires Step(g, s, op).state == CLOSED && !Step(g, s, op).crashed
    ensures |Step(g, s, op).log.closes| >= 2
  {
    hide Close, ReadFd, Send, Completed;
    StepTally(g, s, op);
    if op.SendOp? {
      SendCounts(g, s, op.frame, op.atts);
    }
  }
}
