/** What holds of a server connection in every run, whatever its peer sends. */
module ServerLaws {
  import opened Encoders
  import opened Crypto
  import opened Frames
  import opened Parsing
  import opened ServerSpec

  // -------- what sending and closing leave alone --------

  /** Sending and closing touch neither the session nor what was received or
      dispatched; they may only end the connection. */
  ghost predicate Quiet(s: Conn, t: Conn) {
    && t.aesKey == s.aesKey && t.ssid == s.ssid && t.lastCliFid == s.lastCliFid && t.inBuf == s.inBuf
    && t.log.received == s.log.received && t.log.prefix == s.log.prefix
    && t.log.dispatched == s.log.dispatched
    && (t.fd == s.fd || t.fd == -1)
    && (t.state == s.state || t.state == CLOSED)
  }

  lemma {:induction false} SendQuiet(g: Config, s: Conn, f: Frame, atts: seq<Attempt>)
    ensures var t := Send(g, s, f, atts);
            && Quiet(s, t)
            && (!t.crashed && t.state == CLOSED && s.state != CLOSED ==> t.fd == -1)
            && (!t.crashed && t.fd != s.fd ==> t.state == CLOSED)
    decreases |atts|, 0
  {
    hide Encode;
    if atts != [] {
      var s1 := s.(fid := NextFid(s.fid), log := s.log.(calls := s.log.calls + 1));
      match Encode(g.suite, f, true, s.aesKey, atts[0].iv, s1.fid)
      case Err(_) => CloseQuiet(g, s1, ENCRYPTION_ERROR, true, atts[1..]);
      case Ok(bytes) =>
        CloseQuiet(g, Emit(s1, f, bytes, PushedTo(s.fd, bytes, atts[0])), SOCKET_ERROR, true, atts[1..]);
    }
  }

  lemma {:induction false} CloseQuiet(g: Config, s: Conn, reason: CloseReason, invoke: bool, atts: seq<Attempt>)
    ensures var t := Close(g, s, reason, invoke, atts);
            && Quiet(s, t)
            && (!t.crashed ==> t.state == CLOSED && (s.state != CLOSED ==> t.fd == -1))
            && (!t.crashed && t.fd != s.fd ==> t.state == CLOSED)
    decreases |atts|, 1
  {
    hide Encode;
    SendQuiet(g, s, Farewell(s), atts);
  }

  // -------- the close/send recursion --------

  /** Whether a farewell sent with frame counter `fid` gets out whole. */
  predicate FarewellOut(g: Config, s: Conn, fid: U32, a: Attempt) {
    var t := s.(fid := fid);
    match Encode(g.suite, Farewell(t), true, s.aesKey, a.iv, NextFid(fid))
    case Err(_) => false
    case Ok(bytes) => PushedTo(s.fd, bytes, a) == |bytes|
  }

  function Advance(fid: U32, n: nat): U32 {
    (fid + n) % TWO32
  }

  ghost predicate FirstOut(g: Config, s: Conn, atts: seq<Attempt>, k: nat) {
    && 1 <= k <= |atts|
    && FarewellOut(g, s, Advance(s.fid, k - 1), atts[k - 1])
    && (forall i :: 0 <= i < k - 1 ==> !FarewellOut(g, s, Advance(s.fid, i), atts[i]))
  }

  ghost predicate NoneOut(g: Config, s: Conn, atts: seq<Attempt>) {
    forall i :: 0 <= i < |atts| ==> !FarewellOut(g, s, Advance(s.fid, i), atts[i])
  }

  /** What a send that fails is reported as: without a 32-byte key or an IV its
      frame cannot be sealed, otherwise the write fell short. */
  function FailureOf(key: Bytes, a: Attempt): CloseReason {
    if |key| != 32 || a.iv.None? then ENCRYPTION_ERROR else SOCKET_ERROR
  }

  /** The reports of the first n failed sends, the innermost first. */
  function Nested(key: Bytes, atts: seq<Attempt>, n: nat): (rs: seq<CloseReason>)
    requires n <= |atts|
    ensures |rs| == n
  {
    if n == 0 then [] else [FailureOf(key, atts[n - 1])] + Nested(key, atts, n - 1)
  }

  lemma {:induction false} NestedFirst(key: Bytes, atts: seq<Attempt>, n: nat)
    requires 1 <= n <= |atts|
    ensures Nested(key, atts, n) == Nested(key, atts[1..], n - 1) + [FailureOf(key, atts[0])]
  {
    if n > 1 {
      NestedFirst(key, atts, n - 1);
      assert atts[1..][n - 2] == atts[n - 1];
    }
  }

  /** The state a failed farewell hands to the nested close. */
  function AfterFailed(g: Config, s: Conn, a: Attempt): (r: (Conn, CloseReason))
    requires !FarewellOut(g, s, s.fid, a)
    ensures r.0.fid == NextFid(s.fid) && r.0.aesKey == s.aesKey && r.0.ssid == s.ssid && r.0.fd == s.fd
    ensures r.0.state == s.state && r.0.crashed == s.crashed && r.0.log.closes == s.log.closes
    ensures r.1 == FailureOf(s.aesKey, a)
  {
    var s1 := s.(fid := NextFid(s.fid), log := s.log.(calls := s.log.calls + 1));
    EncodeFailsIff(g.suite, Farewell(s), s.aesKey, a.iv, s1.fid);
    match Encode(g.suite, Farewell(s), true, s.aesKey, a.iv, s1.fid)
    case Err(_) => (s1, ENCRYPTION_ERROR)
    case Ok(bytes) => (Emit(s1, Farewell(s), bytes, PushedTo(s.fd, bytes, a)), SOCKET_ERROR)
  }

  /** A close that gets as far as saying goodbye. */
  ghost predicate Closing(s: Conn, reason: CloseReason) {
    s.state != CLOSED && s.fd != -1 && reason != NATURAL && !s.crashed
  }

  lemma CloseUnfolds(g: Config, s: Conn, reason: CloseReason, invoke: bool, atts: seq<Attempt>)
    requires Closing(s, reason) && atts != [] && !FarewellOut(g, s, s.fid, atts[0])
    ensures var (t, inner) := AfterFailed(g, s, atts[0]);
            var r := Close(g, t, inner, true, atts[1..]);
            Close(g, s, reason, invoke, atts) == if r.crashed then r else Finish(g, r, reason, invoke)
  {
  }

  lemma OutOnlyDependsOnFid(g: Config, s: Conn, t: Conn, atts: seq<Attempt>, i: nat)
    requires t.fid == NextFid(s.fid) && t.aesKey == s.aesKey && t.ssid == s.ssid && t.fd == s.fd
    requires i + 1 < |atts|
    ensures FarewellOut(g, t, Advance(t.fid, i), atts[1..][i]) == FarewellOut(g, s, Advance(s.fid, i + 1), atts[i + 1])
  {
    assert Advance(t.fid, i) == Advance(s.fid, i + 1);
  }

  /** r is s closed for `reason` after k farewells: _onClose was called k times, for
      the reports of the failed ones, innermost first, and the asked-for one last. */
  ghost predicate ClosedAfter(g: Config, s: Conn, r: Conn, reason: CloseReason, invoke: bool,
                              atts: seq<Attempt>, k: nat) {
    && 1 <= k <= |atts|
    && !r.crashed && r.state == CLOSED && r.fd == -1 && r.fid == Advance(s.fid, k)
    && (g.notifies ==>
          r.log.closes == s.log.closes + Nested(s.aesKey, atts, k - 1) + if invoke then [reason] else [])
    && (!g.notifies ==> r.log.closes == s.log.closes)
  }

  /** If the k-th farewell is the first to get out, the close completes, having
      called _onClose exactly k times. */
  lemma {:induction false} CloseAfterKFarewells(g: Config, s: Conn, reason: CloseReason, invoke: bool,
                                                atts: seq<Attempt>, k: nat)
    requires Closing(s, reason) && FirstOut(g, s, atts, k)
    ensures ClosedAfter(g, s, Close(g, s, reason, invoke, atts), reason, invoke, atts, k)
    decreases k
  {
    hide Encode;
    assert Advance(s.fid, 0) == s.fid;
    if k == 1 {
      FirstFarewellCloses(g, s, reason, invoke, atts);
    } else {
      CloseUnfolds(g, s, reason, invoke, atts);
      var (t, inner) := AfterFailed(g, s, atts[0]);
      hide FarewellOut, Close, AfterFailed;
      forall i | 0 <= i < k - 1
        ensures FarewellOut(g, t, Advance(t.fid, i), atts[1..][i])
             == FarewellOut(g, s, Advance(s.fid, i + 1), atts[i + 1])
      {
        OutOnlyDependsOnFid(g, s, t, atts, i);
      }
      CloseAfterKFarewells(g, t, inner, true, atts[1..], k - 1);
      ClosedOnceMore(g, s, t, Close(g, t, inner, true, atts[1..]), inner, reason, invoke, atts, k);
    }
  }

  lemma FirstFarewellCloses(g: Config, s: Conn, reason: CloseReason, invoke: bool, atts: seq<Attempt>)
    requires Closing(s, reason) && atts != [] && FarewellOut(g, s, s.fid, atts[0])
    ensures ClosedAfter(g, s, Close(g, s, reason, invoke, atts), reason, invoke, atts, 1)
  {
    hide Encode;
    assert s.(fid := s.fid) == s;
    var sent := Send(g, s, Farewell(s), atts);
    assert !sent.crashed && sent.log.closes == s.log.closes;
    assert Close(g, s, reason, invoke, atts) == Finish(g, sent, reason, invoke);
    assert s.log.closes + [] == s.log.closes;
  }

  lemma ClosedOnceMore(g: Config, s: Conn, t: Conn, r: Conn, inner: CloseReason, reason: CloseReason, invoke: bool,
                       atts: seq<Attempt>, k: nat)
    requires k >= 2 && t.fid == NextFid(s.fid) && t.log.closes == s.log.closes && t.aesKey == s.aesKey
    requires atts != [] && inner == FailureOf(s.aesKey, atts[0])
    requires ClosedAfter(g, t, r, inner, true, atts[1..], k - 1)
    ensures ClosedAfter(g, s, Finish(g, r, reason, invoke), reason, invoke, atts, k)
  {
    NestedFirst(s.aesKey, atts, k - 1);
    Joined(s.log.closes, Nested(s.aesKey, atts[1..], k - 2), [inner]);
    assert r.log.closes + [] == r.log.closes;
  }

  /** Whether a frame sent now gets out whole. */
  predicate FrameOut(g: Config, s: Conn, f: Frame, a: Attempt) {
    match Encode(g.suite, f, true, s.aesKey, a.iv, NextFid(s.fid))
    case Err(_) => false
    case Ok(bytes) => PushedTo(s.fd, bytes, a) == |bytes|
  }

  /** A send whose own frame fails closes the connection, and the last report is
      its own: that the frame could not be sealed, or that the write fell short.
      The farewells follow on from it; k is the first to get out. */
  lemma SendFailureCloses(g: Config, s: Conn, f: Frame, atts: seq<Attempt>, k: nat)
    requires s.state != CLOSED && s.fd != -1 && !s.crashed && atts != [] && !FrameOut(g, s, f, atts[0])
    requires FirstOut(g, s.(fid := NextFid(s.fid)), atts[1..], k)
    ensures var t := Send(g, s, f, atts);
            && !t.crashed && t.state == CLOSED && t.fd == -1 && t.fid == Advance(s.fid, k + 1)
            && t.log.closes == s.log.closes + if g.notifies then Nested(s.aesKey, atts, k) else []
  {
    hide Encode, FarewellOut, Close;
    var s1 := s.(fid := NextFid(s.fid), log := s.log.(calls := s.log.calls + 1));
    EncodeFailsIff(g.suite, f, s.aesKey, atts[0].iv, s1.fid);
    NestedFirst(s.aesKey, atts, k);
    assert s.log.closes + [] == s.log.closes;
    match Encode(g.suite, f, true, s.aesKey, atts[0].iv, s1.fid)
    case Err(_) => AfterOwnFailure(g, s, s1, ENCRYPTION_ERROR, atts, k);
    case Ok(bytes) =>
      AfterOwnFailure(g, s, Emit(s1, f, bytes, PushedTo(s.fd, bytes, atts[0])), SOCKET_ERROR, atts, k);
  }

  lemma SameFarewells(g: Config, s: Conn, t: Conn, atts: seq<Attempt>)
    requires t.fd == s.fd && t.fid == s.fid && t.aesKey == s.aesKey && t.ssid == s.ssid
    ensures forall i :: 0 <= i < |atts| ==>
              FarewellOut(g, t, Advance(s.fid, i), atts[i]) == FarewellOut(g, s, Advance(s.fid, i), atts[i])
  {
    hide Encode;
  }

  lemma AfterOwnFailure(g: Config, s: Conn, t: Conn, reason: CloseReason, atts: seq<Attempt>, k: nat)
    requires Closing(t, reason) && t.fid == NextFid(s.fid) && t.aesKey == s.aesKey && t.ssid == s.ssid && t.fd == s.fd
    requires t.log.closes == s.log.closes && atts != [] && reason == FailureOf(s.aesKey, atts[0])
    requires FirstOut(g, s.(fid := NextFid(s.fid)), atts[1..], k)
    ensures var r := Close(g, t, reason, true, atts[1..]);
            && !r.crashed && r.state == CLOSED && r.fd == -1 && r.fid == Advance(s.fid, k + 1)
            && (g.notifies ==> r.log.closes == s.log.closes + Nested(s.aesKey, atts, k))
            && (!g.notifies ==> r.log.closes == s.log.closes)
  {
    hide Close, FarewellOut, Advance, NextFid, Nested, Encode;
    AdvanceOnce(s.fid, k);
    SameFarewells(g, s.(fid := NextFid(s.fid)), t, atts[1..]);
    CloseAfterKFarewells(g, t, reason, true, atts[1..], k);
    NestedFirst(s.aesKey, atts, k);
    Joined(s.log.closes, Nested(s.aesKey, atts[1..], k - 1), [reason]);
  }

  lemma AdvanceOnce(fid: U32, n: nat)
    ensures Advance(NextFid(fid), n) == Advance(fid, n + 1)
  {
  }

  /** Without a descriptor the report is all there is. */
  lemma SendWithoutSocketCloses(g: Config, s: Conn, f: Frame, atts: seq<Attempt>)
    requires s.state != CLOSED && s.fd == -1 && !s.crashed && atts != []
    ensures var t := Send(g, s, f, atts);
            && !t.crashed && t.state == CLOSED && t.fd == -1 && t.log.wire == s.log.wire
            && t.log.closes == s.log.closes + if g.notifies then [FailureOf(s.aesKey, atts[0])] else []
  {
    hide Body, AesEncrypt;
    EncodeFailsIff(g.suite, f, s.aesKey, atts[0].iv, NextFid(s.fid));
    assert s.log.closes + [] == s.log.closes;
    if Encode(g.suite, f, true, s.aesKey, atts[0].iv, NextFid(s.fid)).Ok? {
      var bytes := Encode(g.suite, f, true, s.aesKey, atts[0].iv, NextFid(s.fid)).value;
      assert s.log.wire + bytes[..0] == s.log.wire;
    }
  }

  lemma CloseWithoutStack(g: Config, s: Conn, reason: CloseReason, invoke: bool)
    requires Closing(s, reason)
    ensures Close(g, s, reason, invoke, []) == s.(crashed := true)
  {
  }

  /** If no farewell gets out, the recursion eats the whole stack and the
      connection is still open. */
  lemma {:induction false} CloseNeverCompletes(g: Config, s: Conn, reason: CloseReason, invoke: bool,
      atts: seq<Attempt>)
    requires Closing(s, reason) && NoneOut(g, s, atts)
    ensures var r := Close(g, s, reason, invoke, atts);
            r.crashed && r.state == s.state && r.fd == s.fd && r.fid == Advance(s.fid, |atts|)
            && r.log.closes == s.log.closes
    decreases |atts|
  {
    hide FarewellOut, Close, AfterFailed;
    if atts == [] {
      CloseWithoutStack(g, s, reason, invoke);
    } else {
      assert Advance(s.fid, 0) == s.fid;
      CloseUnfolds(g, s, reason, invoke, atts);
      var (t, inner) := AfterFailed(g, s, atts[0]);
      forall i | 0 <= i < |atts| - 1
        ensures !FarewellOut(g, t, Advance(t.fid, i), atts[1..][i])
      {
        OutOnlyDependsOnFid(g, s, t, atts, i);
      }
      CloseNeverCompletes(g, t, inner, true, atts[1..]);
    }
  }

  /** Without a 32-byte key no stack is deep enough: every nested attempt returns
      to the same state with only the frame counter advanced. */
  lemma {:induction false} CloseWithoutKey(g: Config, s: Conn, reason: CloseReason, invoke: bool, atts: seq<Attempt>)
    requires Closing(s, reason) && |s.aesKey| != KEY_SIZE
    ensures Close(g, s, reason, invoke, atts)
         == s.(fid := Advance(s.fid, |atts|), crashed := true, log := s.log.(calls := s.log.calls + |atts|))
    decreases |atts|
  {
    hide Body, AesEncrypt;
    if atts != [] {
      CloseUnfolds(g, s, reason, invoke, atts);
      var (t, inner) := AfterFailed(g, s, atts[0]);
      CloseWithoutKey(g, t, inner, true, atts[1..]);
    }
  }

  /** Meant to notify once: it does exactly when the first farewell gets out. */
  lemma NotifiesOnceIff(g: Config, s: Conn, reason: CloseReason, atts: seq<Attempt>)
    requires Closing(s, reason) && g.notifies
    ensures var r := Close(g, s, reason, true, atts);
            (!r.crashed && r.log.closes == s.log.closes + [reason])
            <==> (atts != [] && FarewellOut(g, s, s.fid, atts[0]))
  {
    hide Encode, Close, FarewellOut;
    assert Advance(s.fid, 0) == s.fid;
    if k: nat :| FirstOut(g, s, atts, k) {
      CloseAfterKFarewells(g, s, reason, true, atts, k);
      var r := Close(g, s, reason, true, atts);
      assert |r.log.closes| == |s.log.closes| + k;
      assert s.log.closes + [] == s.log.closes;
      assert k > 1 ==> !FarewellOut(g, s, Advance(s.fid, 0), atts[0]);
      assert k == 1 ==> s.log.closes + [] + [reason] == s.log.closes + [reason];
    } else {
      NoFirstMeansNone(g, s, atts, |atts|);
      CloseNeverCompletes(g, s, reason, true, atts);
    }
  }

  /** One failed farewell is enough for two notifications. */
  lemma SecondFarewellNotifiesTwice(g: Config, s: Conn, reason: CloseReason, a: Attempt)
    requires Closing(s, reason) && g.notifies && FarewellOut(g, s, Advance(s.fid, 1), a)
    ensures var r := Close(g, s, reason, true, [Attempt(None, []), a]);
            r.log.closes == s.log.closes + [ENCRYPTION_ERROR] + [reason]
  {
    var atts := [Attempt(None, []), a];
    assert !FarewellOut(g, s, Advance(s.fid, 0), atts[0]) by {
      hide Body, BodyHeader;
    }
    hide Encode, Close, FarewellOut;
    assert FirstOut(g, s, atts, 2);
    CloseAfterKFarewells(g, s, reason, true, atts, 2);
    assert Nested(s.aesKey, atts, 1) == [ENCRYPTION_ERROR];
  }

  lemma {:induction false} NoFirstMeansNone(g: Config, s: Conn, atts: seq<Attempt>, n: nat)
    requires n <= |atts|
    requires forall k: nat :: !FirstOut(g, s, atts, k)
    ensures forall i :: 0 <= i < n ==> !FarewellOut(g, s, Advance(s.fid, i), atts[i])
  {
    if n > 0 {
      NoFirstMeansNone(g, s, atts, n - 1);
      assert !FirstOut(g, s, atts, n);
    }
  }

  /** A close that says goodbye completes iff some farewell gets out. */
  lemma CloseCrashesIff(g: Config, s: Conn, reason: CloseReason, invoke: bool, atts: seq<Attempt>)
    requires Closing(s, reason)
    ensures var r := Close(g, s, reason, invoke, atts);
            && (r.crashed <==> NoneOut(g, s, atts))
            && (r.crashed ==> r.state == s.state && r.fd == s.fd && r.log.closes == s.log.closes)
            && (!r.crashed ==> r.state == CLOSED && r.fd == -1)
  {
    hide Encode, Close, FarewellOut;
    if k: nat :| FirstOut(g, s, atts, k) {
      CloseAfterKFarewells(g, s, reason, invoke, atts, k);
    } else {
      NoFirstMeansNone(g, s, atts, |atts|);
      CloseNeverCompletes(g, s, reason, invoke, atts);
    }
  }

  // -------- dispatch in closed form --------

  function Delivered(s: Conn, fs: seq<Frame>): Conn {
    s.(lastCliFid := LastFid(s.lastCliFid, fs), log := s.log.(dispatched := s.log.dispatched + fs))
  }

  /** The dispatch loop hands over exactly the accepted frames, and closes if
      one is left. */
  lemma {:induction false} DispatchIs(g: Config, s: Conn, fs: seq<Frame>, atts: seq<Attempt>)
    ensures var a := Accepted(s.ssid, s.lastCliFid, fs);
            Dispatch(g, s, fs, atts)
            == if a == fs then Outcome(Delivered(s, fs), true)
               else Outcome(Close(g, Delivered(s, a), INVALID_REQUEST, true, atts), false)
    decreases |fs|
  {
    hide Close, Fresh;
    if fs == [] || !Fresh(s.ssid, s.lastCliFid, fs[0]) {
      assert s.log.dispatched + [] == s.log.dispatched;
      assert Delivered(s, []) == s;
    } else {
      var t := Deliver(s, fs[0]);
      var a := Accepted(s.ssid, fs[0].fid, fs[1..]);
      DispatchIs(g, t, fs[1..], atts);
      DeliveredStep(s, fs[0], a);
      assert [fs[0]] + fs[1..] == fs;
      assert a == fs[1..] <==> [fs[0]] + a == fs;
    }
  }

  lemma DeliveredStep(s: Conn, f: Frame, a: seq<Frame>)
    ensures Delivered(Deliver(s, f), a) == Delivered(s, [f] + a)
  {
    assert s.log.dispatched + [f] + a == s.log.dispatched + ([f] + a);
  }

  // -------- the invariant of every run --------

  function SessionReader(g: Config, s: Conn): Reader {
    SealedReader(g.suite, s.aesKey, g.maxFrameSize)
  }

  /** What arrived after the handshake frame. */
  function SessionBytes(s: Conn): Bytes {
    if s.log.prefix <= |s.log.received| then s.log.received[s.log.prefix..] else []
  }

  function Prepend(fs: seq<Frame>, v: Verdict): Verdict {
    v.(frames := fs + v.frames)
  }

  /** The reference, read from the start of the session, is what was dispatched
      followed by the reference on what is still buffered. */
  ghost predicate InStep(r: Reader, ssid: U64, done: seq<Frame>, stream: Bytes, last: U32, buf: Bytes) {
    && Reference(r, ssid, 0, stream) == Prepend(done, Reference(r, ssid, last, buf))
    && LastFid(0, done) == last
  }

  ghost predicate Inv(g: Config, s: Conn) {
    && s.log.prefix <= |s.log.received|
    && Ordered(s.ssid, 0, s.log.dispatched)
    && s.log.dispatched <= Reference(SessionReader(g, s), s.ssid, 0, SessionBytes(s)).frames
    && (s.state == HANDSHAKE ==>
          s.log.dispatched == [] && s.lastCliFid == 0
          && (!s.crashed ==> s.log.prefix == 0 && s.inBuf == s.log.received
                             && s.ssid == 0 && s.aesKey == [] && s.fd != -1))
    && (s.state == ACTIVE && !s.crashed ==>
          InStep(SessionReader(g, s), s.ssid, s.log.dispatched, SessionBytes(s), s.lastCliFid, s.inBuf))
    && (s.state == CLOSED && !s.crashed ==> s.fd == -1)
  }

  /** Ending a connection quietly keeps what was true of it. */
  lemma QuietKeepsInv(g: Config, s: Conn, t: Conn)
    requires Inv(g, s) && Quiet(s, t)
    requires !t.crashed && t.state == CLOSED ==> t.fd == -1
    requires !t.crashed && t.fd != s.fd ==> t.state == CLOSED
    requires !t.crashed ==> !s.crashed
    ensures Inv(g, t)
  {
  }

  lemma {:induction false} SendNotLessCrashed(g: Config, s: Conn, f: Frame, atts: seq<Attempt>)
    requires s.crashed
    ensures Send(g, s, f, atts).crashed
    decreases |atts|, 0
  {
    hide Encode;
    if atts != [] {
      var s1 := s.(fid := NextFid(s.fid), log := s.log.(calls := s.log.calls + 1));
      match Encode(g.suite, f, true, s.aesKey, atts[0].iv, s1.fid)
      case Err(_) => CloseNotLessCrashed(g, s1, ENCRYPTION_ERROR, true, atts[1..]);
      case Ok(bytes) =>
        CloseNotLessCrashed(g, Emit(s1, f, bytes, PushedTo(s.fd, bytes, atts[0])), SOCKET_ERROR, true, atts[1..]);
    }
  }

  lemma {:induction false} CloseNotLessCrashed(g: Config, s: Conn, reason: CloseReason, invoke: bool,
      atts: seq<Attempt>)
    requires s.crashed
    ensures Close(g, s, reason, invoke, atts).crashed
    decreases |atts|, 1
  {
    hide Encode;
    SendNotLessCrashed(g, s, Farewell(s), atts);
  }

  lemma CloseKeepsInv(g: Config, s: Conn, reason: CloseReason, invoke: bool, atts: seq<Attempt>)
    requires Inv(g, s)
    ensures Inv(g, Close(g, s, reason, invoke, atts))
  {
    CloseQuiet(g, s, reason, invoke, atts);
    if s.crashed {
      CloseNotLessCrashed(g, s, reason, invoke, atts);
    }
    QuietKeepsInv(g, s, Close(g, s, reason, invoke, atts));
  }

  lemma SendKeepsInv(g: Config, s: Conn, f: Frame, atts: seq<Attempt>)
    requires Inv(g, s)
    ensures Inv(g, Send(g, s, f, atts))
  {
    SendQuiet(g, s, f, atts);
    if s.crashed {
      SendNotLessCrashed(g, s, f, atts);
    }
    QuietKeepsInv(g, s, Send(g, s, f, atts));
  }

  /** Staying in step survives more bytes. */
  lemma InStepAppend(r: Reader, ssid: U64, done: seq<Frame>, stream: Bytes, last: U32, buf: Bytes, x: Bytes)
    requires InStep(r, ssid, done, stream, last, buf)
    ensures InStep(r, ssid, done, stream + x, last, buf + x)
  {
    hide ParseOne, Reference;
    ReferenceResumes(r, ssid, 0, stream, x);
    ReferenceResumes(r, ssid, last, buf, x);
    var v := Reference(r, ssid, last, buf);
    if v.end.Waiting? {
      var w := Reference(r, ssid, v.end.last, v.end.rest + x);
      assert done + v.frames + w.frames == done + (v.frames + w.frames);
    }
  }

  /** ... and a whole batch being taken out of the buffer. */
  lemma InStepBatch(r: Reader, ssid: U64, done: seq<Frame>, stream: Bytes, last: U32, buf: Bytes)
    requires InStep(r, ssid, done, stream, last, buf)
    requires ParseAll(r, buf).fault.None? && Accepted(ssid, last, ParseAll(r, buf).frames) == ParseAll(r, buf).frames
    ensures var p := ParseAll(r, buf);
            InStep(r, ssid, done + p.frames, stream, LastFid(last, p.frames), p.rest)
  {
    BatchMatchesReference(r, ssid, last, buf);
    ParseAllStops(r, buf);
    var p := ParseAll(r, buf);
    assert done + p.frames + [] == done + p.frames;
  }

  lemma AppendKeepsInv(g: Config, s: Conn, x: Bytes)
    requires Inv(g, s) && !s.crashed
    ensures Inv(g, Append(s, x))
  {
    hide Reference, Decode;
    var t := Append(s, x);
    assert SessionBytes(t) == SessionBytes(s) + x;
    var r := SessionReader(g, s);
    ReferenceMonotone(r, s.ssid, 0, SessionBytes(s), x);
    if s.state == ACTIVE {
      InStepAppend(r, s.ssid, s.log.dispatched, SessionBytes(s), s.lastCliFid, s.inBuf, x);
    }
  }

  lemma ActiveBatchKeepsInv(g: Config, s: Conn, atts: seq<Attempt>)
    requires Inv(g, s) && s.state == ACTIVE && !s.crashed
    requires ParseAll(SessionReader(g, s), s.inBuf).fault.None?
    ensures var p := ParseAll(SessionReader(g, s), s.inBuf);
            Inv(g, Dispatch(g, s.(inBuf := p.rest), p.frames, atts).conn)
  {
    hide Close, Dispatch, ParseOne, ParseAll, Reference, Decode, Accepted;
    var r := SessionReader(g, s);
    var p := ParseAll(r, s.inBuf);
    var s1 := s.(inBuf := p.rest);
    var a := Accepted(s.ssid, s.lastCliFid, p.frames);
    DispatchIs(g, s1, p.frames, atts);
    BatchMatchesReference(r, s.ssid, s.lastCliFid, s.inBuf);
    AcceptedOrdered(s.ssid, s.lastCliFid, p.frames);
    OrderedAppend(s.ssid, 0, s.log.dispatched, a);
    var t := Delivered(s1, a);
    assert t.log.dispatched <= Reference(r, s.ssid, 0, SessionBytes(s)).frames;
    if a == p.frames {
      InStepBatch(r, s.ssid, s.log.dispatched, SessionBytes(s), s.lastCliFid, s.inBuf);
    } else {
      CloseQuiet(g, t, INVALID_REQUEST, true, atts);
    }
  }

  lemma SetAesKeyKeepsInv(g: Config, s: Conn, size: nat, key: Bytes, ssid: U64, atts: seq<Attempt>)
    requires Inv(g, s) && s.state == HANDSHAKE && !s.crashed && size <= |s.inBuf|
    ensures Inv(g, SetAesKey(g, s.(inBuf := s.inBuf[size..]), key, Some(ssid), atts).conn)
  {
    hide Send, Reference;
    var s1 := s.(inBuf := s.inBuf[size..], aesKey := key);
    var s2 := s1.(ssid := ssid, log := s1.log.(prefix := size));
    assert |s.log.received| - |s1.inBuf| == size;
    SendQuiet(g, s2, SecuredFrame(s2), atts);
    var t := Send(g, s2, SecuredFrame(s2), atts);
    if !t.crashed {
      assert SessionBytes(t) == t.inBuf;
      var v := Reference(SessionReader(g, t), t.ssid, 0, t.inBuf);
      assert Prepend([], v) == v;
    }
  }

  lemma RefusalKeepsInv(g: Config, s: Conn, size: nat, key: Bytes, atts: seq<Attempt>)
    requires Inv(g, s) && s.state == HANDSHAKE && !s.crashed && size <= |s.inBuf|
    ensures Inv(g, Close(g, s.(inBuf := s.inBuf[size..], aesKey := key), ENCRYPTION_ERROR, true, atts))
  {
    hide Close, Reference;
    CloseQuiet(g, s.(inBuf := s.inBuf[size..], aesKey := key), ENCRYPTION_ERROR, true, atts);
  }

  lemma HandshakeKeepsInv(g: Config, s: Conn, size: nat, sealedKey: Bytes, now: U32, ssid: Option<U64>,
      atts: seq<Attempt>)
    requires Inv(g, s) && s.state == HANDSHAKE && !s.crashed && size <= |s.inBuf|
    ensures Inv(g, Handshake(g, s.(inBuf := s.inBuf[size..]), sealedKey, now, ssid, atts).conn)
  {
    hide Close, Send, Inv;
    RefusalKeepsInv(g, s, size, s.aesKey, atts);
    assert s.(aesKey := s.aesKey) == s;
    match g.suite.rsaOpen(sealedKey)
    case None =>
    case Some(plain) =>
      if |plain| == KEY_SIZE + 4 {
        RefusalKeepsInv(g, s, size, plain[..KEY_SIZE], atts);
        if ssid.Some? {
          SetAesKeyKeepsInv(g, s, size, plain[..KEY_SIZE], ssid.value, atts);
        }
      }
  }

  lemma ProcessKeepsInv(g: Config, s: Conn, i: Input)
    requires Inv(g, s) && !s.crashed
    ensures Inv(g, Process(g, s, i).conn)
  {
    hide Close, Dispatch, Handshake, ParseAll, ParseOne, SealedReader, PlainReader;
    if s.state == HANDSHAKE {
      match ParseOne(ReaderOf(g, s), s.inBuf)
      case Need =>
      case Bad(fault) =>
        CloseKeepsInv(g, s, ReasonFor(fault), true, i.atts);
        CloseQuiet(g, s, ReasonFor(fault), true, i.atts);
      case Got(f, size) =>
        HandshakeKeepsInv(g, s, size, f.data, i.now, i.ssid, i.atts);
    } else {
      BatchKeepsInv(g, s, i.atts);
      var p := ParseAll(SessionReader(g, s), s.inBuf);
      if p.fault.Some? {
        CloseQuiet(g, s.(inBuf := p.rest), ReasonFor(p.fault.value), true, i.atts);
      } else if s.state == ACTIVE {
        ActiveBatchKeepsInv(g, s, i.atts);
      }
    }
  }

  /** A batch that ends in a fault: the good frames before it are dropped. */
  lemma BatchKeepsInv(g: Config, s: Conn, atts: seq<Attempt>)
    requires Inv(g, s) && !s.crashed && s.state != HANDSHAKE
    ensures var p := ParseAll(SessionReader(g, s), s.inBuf);
            && (p.fault.Some? ==> Inv(g, Close(g, s.(inBuf := p.rest), ReasonFor(p.fault.value), true, atts)))
            && (s.state == CLOSED ==> Inv(g, s.(inBuf := p.rest)))
  {
    hide Close, ParseAll, Reference;
    var p := ParseAll(SessionReader(g, s), s.inBuf);
    if p.fault.Some? {
      CloseQuiet(g, s.(inBuf := p.rest), ReasonFor(p.fault.value), true, atts);
    }
  }

  lemma StepKeepsInv(g: Config, s: Conn, op: Op)
    requires Inv(g, s)
    ensures Inv(g, Step(g, s, op))
  {
    hide Close, Send, Process, Inv;
    if !s.crashed {
      match op
      case SendOp(f, atts) => SendKeepsInv(g, s, f, atts);
      case CloseOp(reason, invoke, atts) => CloseKeepsInv(g, s, reason, invoke, atts);
      case Read(i) =>
        CloseKeepsInv(g, s, SOCKET_ERROR, true, i.atts);
        var s1 := Append(s, Concat(i.chunks));
        AppendKeepsInv(g, s, Concat(i.chunks));
        CloseKeepsInv(g, s1, NATURAL, true, i.atts);
        CloseKeepsInv(g, s1, SOCKET_ERROR, true, i.atts);
        ProcessKeepsInv(g, s1, i);
    }
  }

  lemma {:induction false} RunKeepsInv(g: Config, s: Conn, ops: seq<Op>)
    requires Inv(g, s)
    ensures Inv(g, Run(g, s, ops))
    decreases |ops|
  {
    hide Inv, Step;
    if ops != [] {
      StepKeepsInv(g, s, ops[0]);
      RunKeepsInv(g, Step(g, s, ops[0]), ops[1..]);
    }
  }

  lemma NewConnInv(g: Config, fd: int)
    requires fd != -1
    ensures Inv(g, NewConn(fd))
  {
  }

  // -------- the theorems --------

  /** For any byte stream whatever, however it is cut into reads and mixed with
      sends and closes, the requests dispatched are a prefix of those the
      one-frame-at-a-time reference dispatches on the whole session stream; and a
      connection still ACTIVE is exactly in step with it. */
  lemma DispatchFollowsReference(g: Config, fd: int, ops: seq<Op>)
    requires fd != -1
    ensures var s := Run(g, NewConn(fd), ops);
            var v := Reference(SessionReader(g, s), s.ssid, 0, SessionBytes(s));
            && s.log.dispatched <= v.frames
            && (s.state == HANDSHAKE ==> s.log.dispatched == [])
            && (s.state == ACTIVE && !s.crashed ==>
                  v == Prepend(s.log.dispatched, Reference(SessionReader(g, s), s.ssid, s.lastCliFid, s.inBuf)))
  {
    hide Run, Reference, SessionReader;
    NewConnInv(g, fd);
    RunKeepsInv(g, NewConn(fd), ops);
  }

  /** Replay safety: in every run, on any input, dispatched frame ids strictly
      increase and carry the session id, so none is handled twice and a session
      handles fewer than 2^32 frames. */
  lemma ReplaySafe(g: Config, fd: int, ops: seq<Op>)
    requires fd != -1
    ensures var s := Run(g, NewConn(fd), ops);
            && Ordered(s.ssid, 0, s.log.dispatched)
            && |s.log.dispatched| <= TWO32 - 1
  {
    hide Run, Reference, SessionReader;
    NewConnInv(g, fd);
    RunKeepsInv(g, NewConn(fd), ops);
    var s := Run(g, NewConn(fd), ops);
    OrderedBound(s.ssid, 0, s.log.dispatched);
  }
}
