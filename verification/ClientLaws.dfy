/** What holds of the client's end in every run. */
module ClientLaws {
  import opened Encoders
  import opened Crypto
  import opened Frames
  import opened Parsing
  import opened ServerSpec
  import opened ServerTheorems
  import opened Cutting
  import opened ClientSpec

  // -------- the reference across the handshake --------

  /** What the whole stream from the server amounts to: the session it opens, if
      any, and what follows. */
  datatype Session = Session(ssid: Option<U64>, verdict: Verdict)

  function SessionReference(r: Reader, b: Bytes): Session {
    match ParseOne(r, b)
    case Need => Session(None, Verdict([], Waiting(b, 0)))
    case Bad(fault) => Session(None, Verdict([], Broken(fault)))
    case Got(f, size) =>
      if f.data == SECURED then Session(Some(f.ssid), Reference(r, f.ssid, 0, b[size..]))
      else Session(None, Verdict([], Broken(Undecodable(Runtime))))
  }

  /** Whether parsing all of b runs into a std::runtime_error: a body that does
      not decrypt, or a first frame that is not "Connection secured". */
  predicate StreamAborts(r: Reader, b: Bytes) {
    match ParseOne(r, b)
    case Need => false
    case Bad(fault) => fault == Undecodable(Runtime)
    case Got(f, size) => f.data != SECURED || ParseAll(r, b[size..]).fault == Some(Undecodable(Runtime))
  }

  function Delivery(s: Client, fs: seq<Frame>): Client {
    s.(lastSrvFid := LastFid(s.lastSrvFid, fs), trace := s.trace.(delivered := s.trace.delivered + fs))
  }

  lemma {:induction false} DeliverAllIs(g: Settings, s: Client, fs: seq<Frame>)
    ensures var a := Accepted(s.ssid, s.lastSrvFid, fs);
            DeliverAll(g, s, fs) == if a == fs then Delivery(s, fs) else Shutdown(g, Delivery(s, a))
    decreases |fs|
  {
    hide Shutdown, Fresh;
    if fs == [] || !Fresh(s.ssid, s.lastSrvFid, fs[0]) {
      assert s.trace.delivered + [] == s.trace.delivered;
      assert Delivery(s, []) == s;
    } else {
      var t := Accept(s, fs[0]);
      var a := Accepted(s.ssid, fs[0].fid, fs[1..]);
      DeliverAllIs(g, t, fs[1..]);
      DeliveryStep(s, fs[0], a);
      assert [fs[0]] + fs[1..] == fs;
      assert a == fs[1..] <==> [fs[0]] + a == fs;
    }
  }

  lemma DeliveryStep(s: Client, f: Frame, a: seq<Frame>)
    ensures Delivery(Accept(s, f), a) == Delivery(s, [f] + a)
  {
    Joined(s.trace.delivered, [f], a);
  }

  /** After the handshake the parse loop is ParseAll. */
  lemma {:induction false} ParseBufferIs(g: Settings, s: Client)
    requires s.phase != SHAKING
    ensures var p := ParseAll(SessionReaderOf(g, s), s.buffer);
            var t := s.(buffer := p.rest);
            ParseBuffer(g, s)
            == if p.fault.None? then Batch(t, p.frames, false)
               else if p.fault.value == Undecodable(Runtime) then Batch(t, p.frames, true)
               else Batch(Shutdown(g, t), p.frames, false)
    decreases |s.buffer|
  {
    hide ParseOne, SealedReader, Shutdown;
    var one := ParseOne(SessionReaderOf(g, s), s.buffer);
    if one.Got? {
      ParseBufferIs(g, s.(buffer := s.buffer[one.size..]));
    } else {
      assert s.(buffer := s.buffer) == s;
    }
  }

  // -------- following the reference --------

  ghost predicate Exactly(v: Verdict, s: Client) {
    v == Verdict(s.trace.delivered, Waiting(s.buffer, s.lastSrvFid))
  }

  /** A client that is still running has delivered exactly what the reference
      delivers on all bytes received so far and waits where it waits. */
  ghost predicate Following(g: Settings, s: Client) {
    var ref := SessionReference(SessionReaderOf(g, s), s.trace.received);
    && s.trace.delivered <= ref.verdict.frames
    && (!s.running <==> s.phase == SHUT)
    && (s.running && !s.aborted ==>
          && Exactly(ref.verdict, s)
          && (if s.phase == SHAKING then ref.ssid.None? && s.ssid == 0 && s.lastSrvFid == 0 && s.trace.delivered == []
              else ref.ssid == Some(s.ssid)))
  }

  /** t is where s gets by taking in v: aborted or everything of v delivered, and
      still running exactly when v waits. */
  ghost predicate Settled(s: Client, t: Client, v: Verdict, aborts: bool) {
    && t.aesKey == s.aesKey && t.trace.received == s.trace.received
    && (t.aborted <==> aborts)
    && (aborts ==> t.trace.delivered == s.trace.delivered)
    && (!t.running <==> t.phase == SHUT)
    && (!aborts ==> t.trace.delivered == v.frames && (t.running <==> v.end.Waiting?))
    && (!aborts && t.running ==> Exactly(v, t))
  }

  /** In CONNECTED, in terms of the reference on the buffer. */
  lemma SettleConnected(g: Settings, s: Client)
    requires s.phase == CONNECTED && s.running && !s.aborted
    ensures var r := SessionReaderOf(g, s);
            var v := Reference(r, s.ssid, s.lastSrvFid, s.buffer);
            var t := Settle(g, s);
            && Settled(s, t, v.(frames := s.trace.delivered + v.frames),
                       ParseAll(r, s.buffer).fault == Some(Undecodable(Runtime)))
            && t.ssid == s.ssid && (t.phase == CONNECTED || t.phase == SHUT)
  {
    hide ParseAll, ParseOne, Reference, SealedReader, ParseBuffer, DeliverAll, Accepted;
    var r := SessionReaderOf(g, s);
    var p := ParseAll(r, s.buffer);
    ParseBufferIs(g, s);
    BatchMatchesReference(r, s.ssid, s.lastSrvFid, s.buffer);
    DeliverAllIs(g, ParseBuffer(g, s).client, p.frames);
  }

  /** In HANDSHAKE, where the buffer is all that was received. */
  lemma SettleShaking(g: Settings, s: Client)
    requires s.phase == SHAKING && s.running && !s.aborted
    requires s.buffer == s.trace.received && s.lastSrvFid == 0 && s.trace.delivered == []
    ensures var r := SessionReaderOf(g, s);
            var ref := SessionReference(r, s.buffer);
            var t := Settle(g, s);
            && Settled(s, t, ref.verdict, StreamAborts(r, s.buffer))
            && (t.running && !t.aborted && ref.ssid.None? ==> t.phase == SHAKING && t.ssid == s.ssid)
            && (t.running && !t.aborted && ref.ssid.Some? ==> t.phase == CONNECTED && ref.ssid == Some(t.ssid))
  {
    hide ParseAll, ParseOne, Reference, SealedReader, DeliverAll;
    var r := SessionReaderOf(g, s);
    match ParseOne(r, s.buffer)
    case Need => DeliverAllIs(g, s, []);
                 assert s.trace.delivered + [] == s.trace.delivered;
    case Bad(fault) => DeliverAllIs(g, Shutdown(g, s), []);
                       assert s.trace.delivered + [] == s.trace.delivered;
    case Got(f, size) =>
      if f.data == SECURED {
        var s1 := s.(buffer := s.buffer[size..], phase := CONNECTED, ssid := f.ssid);
        SettleConnected(g, s1);
        assert Settle(g, s) == Settle(g, s1);
        var v := Reference(r, f.ssid, 0, s1.buffer);
        assert [] + v.frames == v.frames;
      }
  }

  /** How the whole stream's reference follows from the buffered part's. */
  lemma SessionResumes(r: Reader, b: Bytes, x: Bytes)
    requires SessionReference(r, b).ssid.Some? && SessionReference(r, b).verdict.end.Waiting?
    ensures var ref := SessionReference(r, b);
            var v := Reference(r, ref.ssid.value, ref.verdict.end.last, ref.verdict.end.rest + x);
            && SessionReference(r, b + x) == ref.(verdict := v.(frames := ref.verdict.frames + v.frames))
            && StreamAborts(r, b + x)
               == (ParseAll(r, ref.verdict.end.rest + x).fault == Some(Undecodable(Runtime)))
  {
    hide ParseOne, ParseAll, Reference;
    var one := ParseOne(r, b);
    var tail := b[one.size..];
    ParseOneStable(r, b, x);
    assert (b + x)[one.size..] == tail + x;
    ReferenceResumes(r, one.frame.ssid, 0, tail, x);
    ParseAllResumes(r, tail, x);
    BatchMatchesReference(r, one.frame.ssid, 0, tail);
  }

  /** A stream that has stopped waiting is settled for good. */
  lemma SessionFinal(r: Reader, b: Bytes, x: Bytes)
    ensures !SessionReference(r, b).verdict.end.Waiting? ==> SessionReference(r, b + x) == SessionReference(r, b)
    ensures StreamAborts(r, b) ==> StreamAborts(r, b + x)
  {
    hide ParseOne, ParseAll, Reference;
    var one := ParseOne(r, b);
    if !one.Need? {
      ParseOneStable(r, b, x);
      if one.Got? {
        assert (b + x)[one.size..] == b[one.size..] + x;
        ReferenceResumes(r, one.frame.ssid, 0, b[one.size..], x);
        ParseAllResumes(r, b[one.size..], x);
      }
    }
  }

  lemma SessionMonotone(r: Reader, b: Bytes, x: Bytes)
    ensures SessionReference(r, b).verdict.frames <= SessionReference(r, b + x).verdict.frames
  {
    hide ParseOne, Reference;
    var one := ParseOne(r, b);
    if !one.Need? {
      ParseOneStable(r, b, x);
      if one.Got? {
        assert (b + x)[one.size..] == b[one.size..] + x;
        ReferenceMonotone(r, one.frame.ssid, 0, b[one.size..], x);
      }
    }
  }

  ghost predicate Alive(g: Settings, s: Client) {
    Following(g, s) && s.running && !s.aborted
  }

  /** One read of a client that follows the reference, across the handshake or not. */
  lemma OneArrival(g: Settings, s: Client, x: Bytes)
    requires Alive(g, s)
    ensures var r := SessionReaderOf(g, s);
            var all := s.trace.received + x;
            var t := Settle(g, Gather(s, x));
            && Settled(Gather(s, x), t, SessionReference(r, all).verdict, StreamAborts(r, all))
            && Following(g, t)
  {
    hide ParseOne, ParseAll, Reference, SealedReader, Settle, SessionReference, StreamAborts;
    var r := SessionReaderOf(g, s);
    var b := s.trace.received;
    var s1 := Gather(s, x);
    SessionMonotone(r, b, x);
    if s.phase == SHAKING {
      ShakingBuffer(r, b);
      SettleShaking(g, s1);
      var ref := SessionReference(r, b + x);
      if ref.ssid.None? && ref.verdict.end.Waiting? {
        ShakingBuffer(r, b + x);
      }
    } else {
      SessionResumes(r, b, x);
      SettleConnected(g, s1);
    }
  }

  lemma ShakingBuffer(r: Reader, b: Bytes)
    requires SessionReference(r, b).ssid.None? && SessionReference(r, b).verdict.end.Waiting?
    ensures SessionReference(r, b).verdict == Verdict([], Waiting(b, 0))
  {
    hide ParseOne;
  }

  // -------- chunking independence --------

  ghost predicate AllArrivals(es: seq<Event>) {
    forall i :: 0 <= i < |es| ==> es[i].Arrive? && es[i].end == WouldBlock
  }

  ghost function Arrived(es: seq<Event>): Bytes {
    if es == [] then []
    else (if es[0].Arrive? then Concat(es[0].chunks) else []) + Arrived(es[1..])
  }

  /** However the stream is cut: a stream without a runtime error is delivered as
      the reference says, and the final state is told by the bytes alone. */
  lemma {:induction false} CutArrivals(g: Settings, s: Client, es: seq<Event>)
    requires Alive(g, s) && AllArrivals(es)
    ensures var r := SessionReaderOf(g, s);
            var all := s.trace.received + Arrived(es);
            var ref := SessionReference(r, all);
            var t := Runs(g, s, es);
            && t.trace.delivered <= ref.verdict.frames
            && (!StreamAborts(r, all) ==>
                  && !t.aborted && t.trace.delivered == ref.verdict.frames
                  && (t.running <==> ref.verdict.end.Waiting?)
                  && (t.running ==> Exactly(ref.verdict, t)
                                    && (if ref.ssid.None? then t.phase == SHAKING && t.ssid == 0
                                        else t.phase == CONNECTED && Some(t.ssid) == ref.ssid)))
    decreases |es|
  {
    hide ParseOne, ParseAll, Reference, SealedReader, Settle, SessionReference, StreamAborts;
    var r := SessionReaderOf(g, s);
    var b := s.trace.received;
    if es == [] {
      assert b + [] == b;
    } else {
      var x, y := Concat(es[0].chunks), Arrived(es[1..]);
      Joined(b, x, y);
      OneArrival(g, s, x);
      var t := Settle(g, Gather(s, x));
      assert Next(g, s, es[0]) == t;
      SessionFinal(r, b + x, y);
      SessionMonotone(r, b + x, y);
      if t.running && !t.aborted {
        CutArrivals(g, t, es[1..]);
      } else {
        StoppedStays(g, t, es[1..]);
      }
    }
  }

  lemma {:induction false} StoppedStays(g: Settings, s: Client, es: seq<Event>)
    requires s.aborted || !s.running
    ensures Runs(g, s, es) == s
    decreases |es|
  {
    if es != [] {
      StoppedStays(g, s, es[1..]);
    }
  }

  /** A client whose loop has just sent the handshake. */
  function Started(g: Settings, key: Bytes, padding: Bytes, now: U32, accepted: int): Client {
    DoHandshake(g, NEW_CLIENT, Some(key), Some(padding), now, accepted)
  }

  lemma StartedAlive(g: Settings, key: Bytes, padding: Bytes, now: U32, accepted: int)
    ensures var s := Started(g, key, padding, now, accepted);
            && Alive(g, s) && s.aesKey == key && s.phase == SHAKING
            && s.trace.received == [] && s.trace.delivered == []
  {
    hide EncodePlain;
    var s := Started(g, key, padding, now, accepted);
    NeedsMore(SessionReaderOf(g, s), []);
  }

  /** Chunking independence across the handshake: for every stream without a
      runtime error, well formed or not, two ways of cutting it into reads leave
      the same responses delivered, the same session, the same residual. */
  lemma {:induction false} ChunkingIndependence(g: Settings, key: Bytes, padding: Bytes, now: U32, accepted: int,
                                                es: seq<Event>, fs: seq<Event>)
    requires AllArrivals(es) && AllArrivals(fs) && Arrived(es) == Arrived(fs)
    requires !StreamAborts(SealedReader(g.suite, key, g.maxFrameSize), Arrived(es))
    ensures var s := Started(g, key, padding, now, accepted);
            var t, u := Runs(g, s, es), Runs(g, s, fs);
            && t.trace.delivered == u.trace.delivered && t.running == u.running
            && (t.running ==>
                  && t.phase == u.phase && t.ssid == u.ssid
                  && t.buffer == u.buffer && t.lastSrvFid == u.lastSrvFid)
  {
    hide Runs, SessionReference, StreamAborts, SealedReader, Started, Following;
    var s := Started(g, key, padding, now, accepted);
    StartedAlive(g, key, padding, now, accepted);
    assert s.trace.received + Arrived(es) == Arrived(es);
    CutArrivals(g, s, es);
    CutArrivals(g, s, fs);
  }

  /** All ways of cutting x into reads deliver the same responses. */
  ghost predicate CutProofClient(g: Settings, s: Client, x: Bytes) {
    forall es: seq<Event>, fs: seq<Event> ::
      AllArrivals(es) && AllArrivals(fs) && Arrived(es) == x && Arrived(fs) == x
      ==> Runs(g, s, es).trace.delivered == Runs(g, s, fs).trace.delivered
  }

  /** The exact condition: a runtime error takes the responses of its own read
      down with it, so delivery is independent of the cuts exactly when the stream
      holds none or has nothing to deliver before it. */
  lemma ClientCutProofIff(g: Settings, key: Bytes, padding: Bytes, now: U32, accepted: int, x: Bytes)
    ensures var r := SealedReader(g.suite, key, g.maxFrameSize);
            CutProofClient(g, Started(g, key, padding, now, accepted), x)
            <==> (!StreamAborts(r, x) || SessionReference(r, x).verdict.frames == [])
  {
    hide Runs, SessionReference, StreamAborts, SealedReader, Started, Following, Arrived, AllArrivals;
    var r := SealedReader(g.suite, key, g.maxFrameSize);
    var s := Started(g, key, padding, now, accepted);
    StartedAlive(g, key, padding, now, accepted);
    var frames := SessionReference(r, x).verdict.frames;
    assert s.trace.received + x == x;
    if !StreamAborts(r, x) || frames == [] {
      forall es: seq<Event> | AllArrivals(es) && Arrived(es) == x
        ensures Runs(g, s, es).trace.delivered == frames
      {
        CutArrivals(g, s, es);
      }
    } else {
      OneArrivalRun(g, s, x);
      var y, z := SplitBeforeFault(r, x, key, g);
      TwoArrivalsRun(g, s, y, z);
      var e, f := [Arrive([x], WouldBlock)], [Arrive([y], WouldBlock), Arrive([z], WouldBlock)];
      assert AllArrivals(e) && Arrived(e) == x && AllArrivals(f) && Arrived(f) == x;
    }
  }

  lemma SingleChunk(x: Bytes)
    ensures Concat([x]) == x
  {
    assert Concat([x]) == x + Concat([]);
  }

  lemma OneArrivalRun(g: Settings, s: Client, x: Bytes)
    requires Alive(g, s) && s.trace.received == [] && StreamAborts(SessionReaderOf(g, s), x)
    ensures var es := [Arrive([x], WouldBlock)];
            && AllArrivals(es) && Arrived(es) == x
            && Runs(g, s, es).trace.delivered == s.trace.delivered
  {
    hide SessionReference, StreamAborts, SealedReader, Following, Settle;
    SingleChunk(x);
    var es := [Arrive([x], WouldBlock)];
    assert es[1..] == [];
    assert Arrived(es) == x + Arrived([]);
    assert s.trace.received + x == x;
    OneArrival(g, s, x);
    assert Runs(g, s, es) == Next(g, s, es[0]);
  }

  lemma TwoArrivalsRun(g: Settings, s: Client, y: Bytes, z: Bytes)
    requires Alive(g, s) && s.trace.received == [] && !StreamAborts(SessionReaderOf(g, s), y)
    requires SessionReference(SessionReaderOf(g, s), y).verdict.end.Waiting?
    requires StreamAborts(SessionReaderOf(g, s), y + z)
    ensures var es := [Arrive([y], WouldBlock), Arrive([z], WouldBlock)];
            && AllArrivals(es) && Arrived(es) == y + z
            && Runs(g, s, es).trace.delivered == SessionReference(SessionReaderOf(g, s), y).verdict.frames
  {
    hide SessionReference, StreamAborts, SealedReader, Following, Settle;
    SingleChunk(y);
    SingleChunk(z);
    var es := [Arrive([y], WouldBlock), Arrive([z], WouldBlock)];
    assert es[1..] == [es[1]] && es[1..][1..] == [];
    assert Arrived(es[1..]) == z + Arrived([]);
    assert s.trace.received + y == y;
    OneArrival(g, s, y);
    var t := Settle(g, Gather(s, y));
    assert Next(g, s, es[0]) == t;
    OneArrival(g, t, z);
    assert Next(g, t, es[1]) == Settle(g, Gather(t, z));
    assert Runs(g, t, es[1..]) == Next(g, t, es[1]);
  }

  /** A cut after everything the reference delivers. */
  lemma SplitBeforeFault(r: Reader, x: Bytes, key: Bytes, g: Settings) returns (y: Bytes, z: Bytes)
    requires r == SealedReader(g.suite, key, g.maxFrameSize)
    requires StreamAborts(r, x) && SessionReference(r, x).verdict.frames != []
    ensures x == y + z && !StreamAborts(r, y)
    ensures SessionReference(r, y).verdict.end.Waiting?
    ensures SessionReference(r, y).verdict.frames == SessionReference(r, x).verdict.frames
  {
    hide ParseOne, ParseAll, Reference, SealedReader, Accepted;
    var one := ParseOne(r, x);
    var ssid, tail := one.frame.ssid, x[one.size..];
    var fs := ParseAll(r, tail).frames;
    var a := Accepted(ssid, 0, fs);
    SealedFramesAreLong(g.suite, key, g.maxFrameSize);
    BatchMatchesReference(r, ssid, 0, tail);
    FrontGot(r, x);
    var cut := CutAt(r, tail, |a|);
    assert fs[..|a|] == a;
    AcceptedAgain(ssid, 0, fs);
    BatchMatchesReference(r, ssid, 0, tail[..cut]);
    y, z := x[..one.size + cut], x[one.size + cut..];
    assert y == x[..one.size] + tail[..cut];
    ParseOneStable(r, x[..one.size], tail[..cut]);
    assert y[one.size..] == tail[..cut];
  }

  /** The last read of a CONNECTED client: it follows the reference to the end. */
  lemma LastReadConnected(g: Settings, s: Client, chunks: seq<Bytes>, end: RecvEnd)
    requires Alive(g, s) && s.phase == CONNECTED && end != WouldBlock
    ensures var r := SessionReaderOf(g, s);
            var all := s.trace.received + Concat(chunks);
            var t := OnSocket(g, s, chunks, end);
            && t.phase == SHUT && !t.running
            && t.trace.closes == s.trace.closes + (if g.hasOnClose then 1 else 0)
            && (t.aborted <==> StreamAborts(r, all))
            && t.trace.delivered == (if t.aborted then s.trace.delivered else SessionReference(r, all).verdict.frames)
            && t.trace.received == all && Following(g, t)
  {
    hide ParseOne, ParseAll, Reference, SealedReader, ParseBuffer, DeliverAll, Accepted, SessionReference,
      StreamAborts, Concat;
    var r, x := SessionReaderOf(g, s), Concat(chunks);
    SessionResumes(r, s.trace.received, x);
    SessionMonotone(r, s.trace.received, x);
    var s1 := Shutdown(g, Gather(s, x));
    var p := ParseAll(r, s1.buffer);
    ParseBufferIs(g, s1);
    BatchMatchesReference(r, s.ssid, s.lastSrvFid, s1.buffer);
    DeliverAllIs(g, ParseBuffer(g, s1).client, p.frames);
  }

  /** The bytes with which the same end, met in HANDSHAKE, does no harm: close()
      has set CLOSED, so what is parsed is not taken for the handshake reply but
      checked against session id 0 and delivered. The last case is a reply under
      session id 0 sent twice, whose second copy the reference delivers. */
  predicate HarmlessEnd(r: Reader, b: Bytes) {
    var p := ParseAll(r, b);
    || p.fault == Some(Undecodable(Runtime)) || p.frames == [] || !Fresh(0, 0, p.frames[0])
    || (p.frames[0].data == SECURED && |p.frames| > 1 && p.frames[1] == p.frames[0])
  }

  lemma ReplyTwice(f: Frame, fs: seq<Frame>)
    requires Fresh(0, 0, f)
    ensures Accepted(0, 0, [f] + fs) == [f] + Accepted(0, f.fid, fs)
    ensures Accepted(0, 0, [f] + fs) <= Accepted(0, 0, fs) <==> fs != [] && fs[0] == f
  {
    var a, ref := Accepted(0, f.fid, fs), Accepted(0, 0, fs);
    assert ([f] + fs)[1..] == fs;
    if fs != [] && fs[0] == f {
      assert a == [] && ref[0] == f && [f] <= ref;
    } else {
      assert ref != [] ==> ref[0] == fs[0];
    }
  }

  lemma HarmlessEndIff(r: Reader, b: Bytes)
    requires ParseAll(r, b).fault != Some(Undecodable(Runtime))
    ensures Accepted(0, 0, ParseAll(r, b).frames) <= SessionReference(r, b).verdict.frames <==> HarmlessEnd(r, b)
  {
    hide ParseOne, Reference;
    var one := ParseOne(r, b);
    if one.Got? {
      var tail := b[one.size..];
      var q := ParseAll(r, tail);
      var frames := ParseAll(r, b).frames;
      assert frames == [one.frame] + q.frames;
      if Fresh(0, 0, one.frame) {
        ReplyTwice(one.frame, q.frames);
        BatchMatchesReference(r, 0, 0, tail);
        assert q.frames != [] ==> frames[1] == q.frames[0];
        hide Accepted;
      } else {
        assert Accepted(0, 0, frames) == [];
      }
    }
  }

  lemma HarmlessAbort(r: Reader, b: Bytes)
    requires ParseAll(r, b).fault == Some(Undecodable(Runtime))
    ensures HarmlessEnd(r, b)
  {
  }

  /** The last read in HANDSHAKE: what it aborts on, what it delivers, and when
      that is more than the reference delivers. */
  lemma LastReadInHandshake(g: Settings, s: Client, chunks: seq<Bytes>, end: RecvEnd)
    requires Alive(g, s) && s.phase == SHAKING && end != WouldBlock
    ensures var r := SessionReaderOf(g, s);
            var all := s.trace.received + Concat(chunks);
            var p := ParseAll(r, all);
            var t := OnSocket(g, s, chunks, end);
            && t.phase == SHUT && !t.running && t.trace.received == all && t.aesKey == s.aesKey
            && t.trace.closes == s.trace.closes + (if g.hasOnClose then 1 else 0)
            && (t.aborted <==> p.fault == Some(Undecodable(Runtime)))
            && t.trace.delivered == (if t.aborted then [] else Accepted(0, 0, p.frames))
            && (t.trace.delivered <= SessionReference(r, all).verdict.frames <==> HarmlessEnd(r, all))
  {
    hide ParseOne, ParseAll, Reference, SealedReader, ParseBuffer, DeliverAll, Accepted, SessionReference,
      Concat, HarmlessEnd;
    var r, x := SessionReaderOf(g, s), Concat(chunks);
    ShakingBuffer(r, s.trace.received);
    var s1 := Shutdown(g, Gather(s, x));
    ParseBufferIs(g, s1);
    DeliverAllIs(g, ParseBuffer(g, s1).client, ParseAll(r, s1.buffer).frames);
    if ParseAll(r, s1.buffer).fault == Some(Undecodable(Runtime)) {
      HarmlessAbort(r, s1.buffer);
    } else {
      HarmlessEndIff(r, s1.buffer);
    }
  }

  /** The last read, with the peer's end of stream or an error: unlike the server,
      the client still parses and delivers what arrived, then is shut. In CONNECTED
      it delivers what the reference does; in HANDSHAKE what passes for session 0,
      which is within the reference iff the end is harmless. */
  lemma LastReadIs(g: Settings, s: Client, chunks: seq<Bytes>, end: RecvEnd)
    requires Alive(g, s) && end != WouldBlock
    ensures var r := SessionReaderOf(g, s);
            var all := s.trace.received + Concat(chunks);
            var p := ParseAll(r, all);
            var t := OnSocket(g, s, chunks, end);
            && t.phase == SHUT && !t.running && t.trace.received == all
            && t.trace.closes == s.trace.closes + (if g.hasOnClose then 1 else 0)
            && (t.aborted <==> if s.phase == SHAKING then p.fault
                  == Some(Undecodable(Runtime)) else StreamAborts(r, all))
            && t.trace.delivered == (if t.aborted then s.trace.delivered
                                     else if s.phase == SHAKING then Accepted(0, 0, p.frames)
                                     else SessionReference(r, all).verdict.frames)
            && (t.trace.delivered <= SessionReference(r, all).verdict.frames
                <==> (s.phase == SHAKING ==> HarmlessEnd(r, all)))
  {
    hide ParseAll, ParseOne, SealedReader, OnSocket, SessionReference, StreamAborts, Concat, Accepted, HarmlessEnd;
    if s.phase == SHAKING {
      LastReadInHandshake(g, s, chunks, end);
    } else {
      SessionMonotone(SessionReaderOf(g, s), s.trace.received, Concat(chunks));
      LastReadConnected(g, s, chunks, end);
    }
  }

  /** A run that meets the end of the stream while still in HANDSHAKE. */
  ghost predicate EndsInHandshake(g: Settings, s: Client, es: seq<Event>)
    decreases |es|
  {
    && es != []
    && (|| (s.running && !s.aborted && s.phase == SHAKING && es[0].Arrive? && es[0].end != WouldBlock)
        || EndsInHandshake(g, Next(g, s, es[0]), es[1..]))
  }

  ghost predicate WithinReference(g: Settings, s: Client) {
    s.trace.delivered <= SessionReference(SessionReaderOf(g, s), s.trace.received).verdict.frames
  }

  lemma NextFollowing(g: Settings, s: Client, e: Event)
    requires Following(g, s)
    requires s.running && !s.aborted && s.phase == SHAKING && e.Arrive? ==> e.end == WouldBlock
    ensures Following(g, Next(g, s, e))
  {
    hide Settle, HandleCommand, SessionReference, SealedReader, StreamAborts;
    if !s.aborted && s.running {
      match e
      case PopCommand(iv, accepted) =>
        if s.queue != [] {
          HandleKeepsReceipt(g, s.(queue := s.queue[1..]), s.queue[0], iv, accepted);
        }
      case Arrive(chunks, end) =>
        if end == WouldBlock {
          OneArrival(g, s, Concat(chunks));
        } else {
          LastReadConnected(g, s, chunks, end);
        }
      case _ =>
    }
  }

  lemma {:induction false} StoppedEnds(g: Settings, s: Client, es: seq<Event>)
    requires s.aborted || !s.running
    ensures !EndsInHandshake(g, s, es)
    decreases |es|
  {
    if es != [] {
      StoppedEnds(g, s, es[1..]);
    }
  }

  lemma {:induction false} RunsFollowing(g: Settings, s: Client, es: seq<Event>)
    requires Following(g, s)
    ensures var t := Runs(g, s, es);
            && t.aesKey == s.aesKey
            && (!EndsInHandshake(g, s, es) ==> Following(g, t))
            && (EndsInHandshake(g, s, es) ==>
                  (WithinReference(g, t) <==> HarmlessEnd(SessionReaderOf(g, s), t.trace.received)))
    decreases |es|
  {
    hide Following, HarmlessEnd, SealedReader, SessionReference, Settle, HandleCommand;
    if es != [] {
      var e, t := es[0], Next(g, s, es[0]);
      NextKeepsKey(g, s, e);
      if s.running && !s.aborted && s.phase == SHAKING && e.Arrive? && e.end != WouldBlock {
        LastReadInHandshake(g, s, e.chunks, e.end);
        StoppedStays(g, t, es[1..]);
      } else {
        NextFollowing(g, s, e);
        RunsFollowing(g, t, es[1..]);
      }
    }
  }

  lemma NextKeepsKey(g: Settings, s: Client, e: Event)
    ensures Next(g, s, e).aesKey == s.aesKey
  {
    hide ParseBuffer, DeliverAll, HandleCommand, Concat, Accepted;
    match e
    case PopCommand(iv, accepted) =>
      if s.queue != [] {
        HandleKeepsReceipt(g, s.(queue := s.queue[1..]), s.queue[0], iv, accepted);
      }
    case Arrive(chunks, end) =>
      var s1 := Gather(s, Concat(chunks));
      var s2 := if end == WouldBlock then s1 else Shutdown(g, s1);
      ParseKeepsKey(g, s2);
      DeliverAllIs(g, ParseBuffer(g, s2).client, ParseBuffer(g, s2).frames);
    case _ =>
  }

  lemma {:induction false} ParseKeepsKey(g: Settings, s: Client)
    ensures ParseBuffer(g, s).client.aesKey == s.aesKey
    decreases |s.buffer|
  {
    hide ParseOne, SealedReader;
    var one := ParseOne(SessionReaderOf(g, s), s.buffer);
    if one.Got? {
      var s1 := s.(buffer := s.buffer[one.size..]);
      ParseKeepsKey(g, s1);
      ParseKeepsKey(g, s1.(phase := CONNECTED, ssid := one.frame.ssid));
    }
  }

  /** In every run whatever, requests, closes and ends of stream mixed in at will,
      the responses delivered are a prefix of the reference's on all bytes
      received, except exactly when the stream ended in HANDSHAKE and what had
      arrived was not harmless. A client still running has delivered exactly the
      reference's and holds the session they opened. */
  lemma DeliveryFollowsReference(g: Settings, key: Bytes, padding: Bytes, now: U32, accepted: int, es: seq<Event>)
    ensures var s := Started(g, key, padding, now, accepted);
            var t := Runs(g, s, es);
            && (!EndsInHandshake(g, s, es) ==> Following(g, t))
            && (WithinReference(g, t) <==>
                  (EndsInHandshake(g, s, es) ==>
                     HarmlessEnd(SealedReader(g.suite, key, g.maxFrameSize), t.trace.received)))
  {
    hide Runs, Started, HarmlessEnd, SealedReader, SessionReference;
    StartedAlive(g, key, padding, now, accepted);
    RunsFollowing(g, Started(g, key, padding, now, accepted), es);
  }

  /** It does happen, as far as close() returns to the loop that called it, which
      its join of that same thread prevents (client/Connection.cpp:193-195 is not
      part of this model): any frame under session id 0 with a nonzero frame id, read
      together with the end of the stream before the handshake is over, is
      delivered as a response although the reference delivers nothing. */
  lemma EndInHandshakeDelivers(g: Settings, key: Bytes, padding: Bytes, now: U32, accepted: int, f: Frame, iv: Bytes)
    requires Lawful(g.suite) && |key| == KEY_SIZE && |iv| == IV_SIZE
    requires |f.path| < TWO16 && 57 + |f.path| + |f.data| <= g.maxFrameSize && f.ssid == 0 && f.fid > 0
    ensures var e := Encode(g.suite, f, true, key, Some(iv), 0);
            && e.Ok?
            && var t := Runs(g, Started(g, key, padding, now, accepted), [Arrive([e.value], Eof)]);
               && t.trace.delivered == [f] && !t.aborted
               && SessionReference(SessionReaderOf(g, t), t.trace.received).verdict.frames == []
  {
    hide Lawful, Encode, SealedReader, Started, OnSocket, ParseOne;
    var r := SealedReader(g.suite, key, g.maxFrameSize);
    SealedIsReadable(g.suite, key, g.maxFrameSize, f, iv, 0);
    var p := Packet(f, Encode(g.suite, f, true, key, Some(iv), 0).value);
    var s := Started(g, key, padding, now, accepted);
    StartedAlive(g, key, padding, now, accepted);
    SingleChunk(p.bytes);
    assert [] + p.bytes == p.bytes && p.bytes + [] == p.bytes;
    LastReadInHandshake(g, s, [p.bytes], Eof);
    ReadableFirst(r, p, []);
    NeedsMore(r, []);
    assert p.bytes[|p.bytes|..] == [];
    assert ParseAll(r, p.bytes).frames == [f];
    assert Accepted(0, 0, [f]) == [f];
    assert Runs(g, s, [Arrive([p.bytes], Eof)]) == OnSocket(g, s, [p.bytes], Eof);
  }

  // -------- any run at all: replay safety --------

  ghost predicate Guarded(s: Client) {
    && Ordered(s.ssid, 0, s.trace.delivered)
    && LastFid(0, s.trace.delivered) == s.lastSrvFid
    && (s.phase == SHAKING ==> s.trace.delivered == [] && s.lastSrvFid == 0)
  }

  lemma {:induction false} ParseGuarded(g: Settings, s: Client)
    requires Guarded(s)
    ensures Guarded(ParseBuffer(g, s).client)
    ensures ParseBuffer(g, s).frames != [] ==> ParseBuffer(g, s).client.phase != SHAKING
    decreases |s.buffer|
  {
    hide ParseOne, SealedReader;
    var one := ParseOne(SessionReaderOf(g, s), s.buffer);
    if one.Got? {
      var s1 := s.(buffer := s.buffer[one.size..]);
      if s.phase != SHAKING {
        ParseGuarded(g, s1);
        ParseKeepsPhase(g, s1);
      } else if one.frame.data == SECURED {
        ParseGuarded(g, s1.(phase := CONNECTED, ssid := one.frame.ssid));
      }
    }
  }

  lemma {:induction false} ParseKeepsPhase(g: Settings, s: Client)
    requires s.phase != SHAKING
    ensures ParseBuffer(g, s).client.phase != SHAKING
    decreases |s.buffer|
  {
    hide ParseOne, SealedReader;
    var one := ParseOne(SessionReaderOf(g, s), s.buffer);
    if one.Got? {
      ParseKeepsPhase(g, s.(buffer := s.buffer[one.size..]));
    }
  }

  lemma SettleGuarded(g: Settings, s: Client)
    requires Guarded(s)
    ensures Guarded(Settle(g, s))
  {
    hide ParseBuffer, DeliverAll, Accepted;
    ParseGuarded(g, s);
    var batch := ParseBuffer(g, s);
    var c := batch.client;
    var a := Accepted(c.ssid, c.lastSrvFid, batch.frames);
    DeliverAllIs(g, c, batch.frames);
    AcceptedOrdered(c.ssid, c.lastSrvFid, batch.frames);
    OrderedAppend(c.ssid, 0, c.trace.delivered, a);
    assert c.trace.delivered + [] == c.trace.delivered;
  }

  lemma HandleKeepsReceipt(g: Settings, s: Client, cmd: Command, iv: Option<Bytes>, accepted: int)
    ensures var t := HandleCommand(g, s, cmd, iv, accepted);
            && t.trace.delivered == s.trace.delivered && t.trace.received == s.trace.received
            && t.ssid == s.ssid && t.lastSrvFid == s.lastSrvFid && t.aesKey == s.aesKey && t.buffer == s.buffer
            && ((t.phase == s.phase && t.running == s.running) || t.phase == SHUT)
            && (s.running && s.phase != SHUT ==> (!t.running <==> t.phase == SHUT))
  {
    hide Encode, EncodePlain;
  }

  lemma {:induction false} RunsGuarded(g: Settings, s: Client, es: seq<Event>)
    requires Guarded(s)
    ensures Guarded(Runs(g, s, es))
    decreases |es|
  {
    hide Settle, HandleCommand, Guarded;
    if es != [] {
      NextGuarded(g, s, es[0]);
      RunsGuarded(g, Next(g, s, es[0]), es[1..]);
    }
  }

  lemma NextGuarded(g: Settings, s: Client, e: Event)
    requires Guarded(s)
    ensures Guarded(Next(g, s, e))
  {
    hide Settle, HandleCommand;
    if !s.aborted && s.running {
      match e
      case PopCommand(iv, accepted) =>
        if s.queue != [] {
          HandleKeepsReceipt(g, s.(queue := s.queue[1..]), s.queue[0], iv, accepted);
        }
      case Arrive(chunks, end) =>
        var s1 := Gather(s, Concat(chunks));
        SettleGuarded(g, if end == WouldBlock then s1 else Shutdown(g, s1));
      case _ =>
    }
  }

  /** Replay safety: in every run, on any input, delivered frame ids strictly
      increase and carry the session id the client holds, so none is delivered
      twice and fewer than 2^32 are. */
  lemma DeliveryIsReplaySafe(g: Settings, key: Bytes, padding: Bytes, now: U32, accepted: int, es: seq<Event>)
    ensures var s := Runs(g, Started(g, key, padding, now, accepted), es);
            Ordered(s.ssid, 0, s.trace.delivered) && |s.trace.delivered| <= TWO32 - 1
  {
    hide Runs;
    var s0 := Started(g, key, padding, now, accepted);
    assert Guarded(s0) by {
      hide EncodePlain;
    }
    RunsGuarded(g, s0, es);
    var s := Runs(g, s0, es);
    OrderedBound(s.ssid, 0, s.trace.delivered);
  }

  // -------- what the client puts on the wire --------

  /** The bytes of an emission are the encoding of its frame: sealed under the key,
      or in the clear. */
  ghost predicate Truthful(c: Suite, key: Bytes, e: Emitted) {
    && e.pushed <= |e.packet.bytes|
    && (if e.sealed then Encodes(c, key, e.packet) else e.packet.bytes == EncodePlain(e.packet.frame, 0))
  }

  /** What the single send() of each emission took. */
  ghost function OnWire(es: seq<Emitted>): Bytes {
    if es == [] then []
    else
      var e := es[|es| - 1];
      OnWire(es[..|es| - 1]) + e.packet.bytes[..Min(e.pushed, |e.packet.bytes|)]
  }

  function Packed(es: seq<Emitted>): (ps: seq<Packet>)
    ensures |ps| == |es| && forall i :: 0 <= i < |es| ==> ps[i] == es[i].packet
  {
    seq(|es|, i requires 0 <= i < |es| => es[i].packet)
  }

  /** One plaintext frame, first; everything after it sealed, outside the
      handshake, with frame ids 1, 2, 3, ...; and nothing else on the wire. */
  ghost predicate OnePlain(g: Settings, s: Client) {
    && s.handshakeSent && |s.trace.sent| >= 1 && !s.trace.sent[0].sealed
    && (forall i :: 1 <= i < |s.trace.sent| ==>
          s.trace.sent[i].sealed && s.trace.sent[i].packet.frame.fid == i % TWO32)
    && (forall i :: 0 <= i < |s.trace.sent| ==> Truthful(g.suite, s.aesKey, s.trace.sent[i]))
    && s.trace.wire == OnWire(s.trace.sent)
    && (s.phase == SHAKING ==> |s.trace.sent| == 1)
    && (!s.aborted ==> s.fid == (|s.trace.sent| - 1) % TWO32)
  }

  lemma PushOnePlain(g: Settings, s: Client, p: Packet, accepted: int)
    requires OnePlain(g, s) && !s.aborted && s.phase != SHAKING
    requires p.frame.fid == NextFid(s.fid) && Encodes(g.suite, s.aesKey, p)
    ensures OnePlain(g, Push(s.(fid := NextFid(s.fid)), true, p, accepted))
  {
    hide Encodes, EncodePlain;
    var t := Push(s.(fid := NextFid(s.fid)), true, p, accepted);
    assert t.trace.sent[..|s.trace.sent|] == s.trace.sent;
  }

  lemma HandleOnePlain(g: Settings, s: Client, cmd: Command, iv: Option<Bytes>, accepted: int)
    requires OnePlain(g, s) && !s.aborted
    ensures OnePlain(g, HandleCommand(g, s, cmd, iv, accepted))
  {
    hide Encode, EncodePlain, Truthful, Push, OnWire;
    if cmd.SendCmd? && cmd.frame.Some? && s.phase != SHAKING {
      var f := cmd.frame.value.(fid := NextFid(s.fid));
      var e := Encode(g.suite, f, true, s.aesKey, iv, 0);
      if e.Ok? {
        assert Encodes(g.suite, s.aesKey, Packet(f, e.value));
        PushOnePlain(g, s, Packet(f, e.value), accepted);
      }
    }
  }

  lemma {:induction false} ParseEmitsNothing(g: Settings, s: Client)
    ensures var t := ParseBuffer(g, s).client;
            && t.trace.sent == s.trace.sent && t.trace.wire == s.trace.wire && t.aesKey == s.aesKey
            && t.fid == s.fid && t.handshakeSent == s.handshakeSent
            && t.aborted == s.aborted && (s.phase != SHAKING ==> t.phase != SHAKING)
    decreases |s.buffer|
  {
    hide ParseOne, SealedReader;
    var one := ParseOne(SessionReaderOf(g, s), s.buffer);
    if one.Got? {
      var s1 := s.(buffer := s.buffer[one.size..]);
      ParseEmitsNothing(g, s1);
      ParseEmitsNothing(g, s1.(phase := CONNECTED, ssid := one.frame.ssid));
    }
  }

  lemma SettleOnePlain(g: Settings, s: Client)
    requires OnePlain(g, s)
    ensures OnePlain(g, Settle(g, s))
  {
    hide ParseBuffer, DeliverAll, Accepted, Truthful, OnWire;
    ParseEmitsNothing(g, s);
    var batch := ParseBuffer(g, s);
    DeliverAllIs(g, batch.client, batch.frames);
  }

  lemma NextOnePlain(g: Settings, s: Client, e: Event)
    requires OnePlain(g, s)
    ensures OnePlain(g, Next(g, s, e))
  {
    hide Settle, HandleCommand, Truthful, OnWire;
    if !s.aborted && s.running {
      match e
      case PopCommand(iv, accepted) =>
        if s.queue != [] {
          HandleOnePlain(g, s.(queue := s.queue[1..]), s.queue[0], iv, accepted);
        }
      case Arrive(chunks, end) =>
        var s1 := Gather(s, Concat(chunks));
        SettleOnePlain(g, if end == WouldBlock then s1 else Shutdown(g, s1));
      case _ =>
    }
  }

  lemma {:induction false} RunsOnePlain(g: Settings, s: Client, es: seq<Event>)
    requires OnePlain(g, s)
    ensures OnePlain(g, Runs(g, s, es))
    decreases |es|
  {
    hide Next, OnePlain;
    if es != [] {
      NextOnePlain(g, s, es[0]);
      RunsOnePlain(g, Next(g, s, es[0]), es[1..]);
    }
  }

  lemma StartedOnePlain(g: Settings, key: Bytes, padding: Bytes, now: U32, accepted: int)
    ensures OnePlain(g, Started(g, key, padding, now, accepted))
  {
    hide EncodePlain;
    var s := Started(g, key, padding, now, accepted);
    assert s.trace.sent[..0] == [] && OnWire([]) == [];
  }

  /** The wire holds every emission whole iff every single send() took all of it:
      the client does not send the rest of one that did not. */
  lemma {:induction false} OnWireWholeIff(es: seq<Emitted>)
    requires forall i :: 0 <= i < |es| ==> es[i].pushed <= |es[i].packet.bytes|
    ensures |OnWire(es)| <= |Stream(Packed(es))|
    ensures OnWire(es) == Stream(Packed(es)) <==> forall i :: 0 <= i < |es| ==> es[i].pushed == |es[i].packet.bytes|
  {
    if es != [] {
      var n := |es| - 1;
      var e, front := es[n], es[..n];
      OnWireWholeIff(front);
      assert Packed(es) == Packed(front) + [e.packet];
      StreamPush(Packed(front), e.packet);
      assert e.packet.bytes[..|e.packet.bytes|] == e.packet.bytes;
      if OnWire(es) == Stream(Packed(es)) {
        assert |OnWire(es)| == |OnWire(front)| + e.pushed;
        assert OnWire(front) == OnWire(es)[..|OnWire(front)|];
        assert Stream(Packed(front)) == Stream(Packed(es))[..|OnWire(front)|];
      }
    }
  }

  /** In every run the handshake is the client's first and only plaintext frame,
      nothing else goes out before the handshake is over, every later one is its
      frame sealed under the session's key, and the wire is what the sends took of
      them: all of it iff each send took everything. */
  lemma SinglePlaintextFrame(g: Settings, key: Bytes, padding: Bytes, now: U32, accepted: int, es: seq<Event>)
    ensures var s := Runs(g, Started(g, key, padding, now, accepted), es);
            && OnePlain(g, s)
            && (s.trace.wire == Stream(Packed(s.trace.sent)) <==>
                  forall i :: 0 <= i < |s.trace.sent| ==> s.trace.sent[i].pushed == |s.trace.sent[i].packet.bytes|)
  {
    hide Runs, Started, OnWire, Encodes, EncodePlain, Stream;
    var s0 := Started(g, key, padding, now, accepted);
    StartedOnePlain(g, key, padding, now, accepted);
    RunsOnePlain(g, s0, es);
    var s := Runs(g, s0, es);
    forall i | 0 <= i < |s.trace.sent|
      ensures s.trace.sent[i].pushed <= |s.trace.sent[i].packet.bytes|
    {
      assert Truthful(g.suite, s.aesKey, s.trace.sent[i]);
    }
    OnWireWholeIff(s.trace.sent);
  }

  function Pops(env: seq<(Option<Bytes>, int)>): seq<Event> {
    seq(|env|, i requires 0 <= i < |env| => PopCommand(env[i].0, env[i].1))
  }

  /** Draining the queue at once is popping command by command, so every run with
      drains is one of the runs above. Only a queued CLOSE would make a difference:
      the loop goes on popping after it. */
  lemma {:induction false} DrainIsPops(g: Settings, s: Client, env: seq<(Option<Bytes>, int)>)
    requires s.running && |env| == |s.queue| && forall i :: 0 <= i < |s.queue| ==> s.queue[i].SendCmd?
    ensures PopAll(g, s, env) == Runs(g, s, Pops(env))
    decreases |env|
  {
    hide HandleCommand;
    if s.aborted {
      StoppedStays(g, s, Pops(env));
    } else if env != [] {
      var t := HandleCommand(g, s.(queue := s.queue[1..]), s.queue[0], env[0].0, env[0].1);
      SendKeepsRunning(g, s.(queue := s.queue[1..]), s.queue[0], env[0].0, env[0].1);
      assert Pops(env)[1..] == Pops(env[1..]);
      DrainIsPops(g, t, env[1..]);
    }
  }

  lemma SendKeepsRunning(g: Settings, s: Client, cmd: Command, iv: Option<Bytes>, accepted: int)
    requires cmd.SendCmd?
    ensures var t := HandleCommand(g, s, cmd, iv, accepted); t.running == s.running && t.queue == s.queue
  {
    hide Encode, EncodePlain;
  }

  // -------- single calls --------

  /** send() takes a request, and says so, exactly while the client runs; taking it
      only queues it. */
  lemma RequestIffRunning(s: Client, path: Bytes, data: Bytes)
    requires !s.aborted
    ensures var (t, ok) := Request(s, path, data);
            && (ok <==> s.running && s.phase != SHUT)
            && (!ok ==> t == s)
            && (ok ==>
                  && t == s.(rid := t.rid, queue := t.queue)
                  && |t.queue| == |s.queue| + 1 && t.queue[..|s.queue|] == s.queue
                  && var cmd := t.queue[|s.queue|];
                     && cmd.SendCmd? && cmd.frame.Some? && cmd.frame.value.path == path && cmd.frame.value.data == data
                     && cmd.frame.value.ssid == s.ssid && cmd.frame.value.status == 0 && cmd.frame.value.flags == 0)
  {
  }

  /** A request popped once connected is sent once: the wire grows by as much of its
      encoding as that one send() took, none if it failed; and if it cannot be
      sealed the exception ends the loop with nothing sent. */
  lemma SingleSend(g: Settings, s: Client, f: Frame, iv: Option<Bytes>, accepted: int)
    requires s.phase == CONNECTED
    ensures var e := Encode(g.suite, f.(fid := (s.fid + 1) % TWO32), true, s.aesKey, iv, 0);
            var t := HandleCommand(g, s, SendCmd(Some(f)), iv, accepted);
            && t.fid == (s.fid + 1) % TWO32 && t.phase == CONNECTED && t.running == s.running
            && (e.Ok? <==> |s.aesKey| == 32 && iv.Some?)
            && (e.Ok? ==>
                  && t.aborted == s.aborted
                  && t.trace.wire == s.trace.wire
                     + (if accepted <= 0 then [] else if accepted < |e.value| then e.value[..accepted] else e.value))
            && (e.Err? ==> t.aborted && t.trace == s.trace)
  {
    hide Encode;
    EncodeFailsIff(g.suite, f.(fid := (s.fid + 1) % TWO32), s.aesKey, iv, 0);
  }

  /** The other commands: CLOSE closes; a SEND without a frame throws. */
  lemma OtherCommands(g: Settings, s: Client, iv: Option<Bytes>, accepted: int)
    requires s.running && s.phase != SHUT
    ensures Stopped(g, s, HandleCommand(g, s, CloseCmd, iv, accepted))
    ensures HandleCommand(g, s, SendCmd(None), iv, accepted) == s.(aborted := true)
  {
  }

  /** t is s closed: stopped, its owner told once, all else left alone. */
  ghost predicate Stopped(g: Settings, s: Client, t: Client) {
    t == s.(phase := SHUT, running := false,
            trace := s.trace.(closes := s.trace.closes + if g.hasOnClose then 1 else 0))
  }

  /** close() and a hang-up of the peer stop a running client, and do nothing to any
      other. */
  lemma CallsStop(g: Settings, s: Client)
    ensures s.running && s.phase != SHUT && !s.aborted ==>
              Stopped(g, s, Next(g, s, CloseCall)) && Stopped(g, s, Next(g, s, HangUp))
    ensures !s.running ==> Next(g, s, CloseCall) == s && Next(g, s, HangUp) == s
  {
  }

  /** Key generation or RSA encryption failing ends the loop with nothing sent. */
  lemma HandshakeFailures(g: Settings, key: Option<Bytes>, padding: Option<Bytes>, now: U32, accepted: int)
    requires key.None? || padding.None?
    ensures var t := DoHandshake(g, NEW_CLIENT, key, padding, now, accepted);
            t.aborted && t.trace == NEW_CLIENT.trace && !t.handshakeSent
  {
  }

  /** The owner is told as often as the client has stopped: never while it runs,
      once when it does not. */
  ghost predicate ToldOnce(g: Settings, s: Client) {
    && (s.running <==> s.phase != SHUT)
    && s.trace.closes == if !s.running && g.hasOnClose then 1 else 0
  }

  lemma {:induction false} ParseTellsOnce(g: Settings, s: Client)
    requires ToldOnce(g, s)
    ensures ToldOnce(g, ParseBuffer(g, s).client)
    decreases |s.buffer|
  {
    hide ParseOne, SealedReader;
    var one := ParseOne(SessionReaderOf(g, s), s.buffer);
    if one.Got? {
      var s1 := s.(buffer := s.buffer[one.size..]);
      ParseTellsOnce(g, s1);
      if s.phase == SHAKING {
        ParseTellsOnce(g, s1.(phase := CONNECTED, ssid := one.frame.ssid));
      }
    }
  }

  lemma NextTellsOnce(g: Settings, s: Client, e: Event)
    requires ToldOnce(g, s)
    ensures ToldOnce(g, Next(g, s, e))
  {
    hide ParseBuffer, DeliverAll, Accepted, Encode, EncodePlain, Concat;
    if s.running && !s.aborted && e.Arrive? {
      var s1 := Gather(s, Concat(e.chunks));
      var s2 := if e.end == WouldBlock then s1 else Shutdown(g, s1);
      ParseTellsOnce(g, s2);
      DeliverAllIs(g, ParseBuffer(g, s2).client, ParseBuffer(g, s2).frames);
    }
  }

  lemma {:induction false} RunsTellOnce(g: Settings, s: Client, es: seq<Event>)
    requires ToldOnce(g, s)
    ensures ToldOnce(g, Runs(g, s, es))
    decreases |es|
  {
    hide Next, ToldOnce;
    if es != [] {
      NextTellsOnce(g, s, es[0]);
      RunsTellOnce(g, Next(g, s, es[0]), es[1..]);
    }
  }

  /** In every run: _onClose is called once if the client has stopped, never if not. */
  lemma ClientIsToldOnce(g: Settings, key: Bytes, padding: Bytes, now: U32, accepted: int, es: seq<Event>)
    ensures ToldOnce(g, Runs(g, Started(g, key, padding, now, accepted), es))
  {
    hide Runs;
    var s := Started(g, key, padding, now, accepted);
    assert ToldOnce(g, s) by {
      hide EncodePlain;
    }
    RunsTellOnce(g, s, es);
  }
}
