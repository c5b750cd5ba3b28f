/** How much the reads of a server connection may be cut (server/structures.cpp:
    71-116, 154-211): what it dispatches is meant to depend on the bytes alone. */
module Cutting {
  import opened Encoders
  import opened Crypto
  import opened Frames
  import opened Parsing
  import opened ServerSpec
  import opened ServerLaws
  import opened ServerTheorems

  // -------- how reads may be cut --------

  ghost predicate AllReads(ops: seq<Op>) {
    forall i :: 0 <= i < |ops| ==> ops[i].Read? && ops[i].input.end == WouldBlock
  }

  ghost function Received(ops: seq<Op>): Bytes {
    if ops == [] then []
    else (if ops[0].Read? then Concat(ops[0].input.chunks) else []) + Received(ops[1..])
  }

  ghost predicate Ready(g: Config, s: Conn) {
    Open(s) && ParseOne(SessionReader(g, s), s.inBuf) == Need
  }

  /** One read of an ACTIVE connection: a fault anywhere in the batch drops all of
      it, otherwise the reference tells what happens. */
  lemma OneRead(g: Config, s: Conn, i: Input)
    requires Open(s) && i.end == WouldBlock
    ensures var b := s.inBuf + Concat(i.chunks);
            var p := ParseAll(SessionReader(g, s), b);
            var v := Reference(SessionReader(g, s), s.ssid, s.lastCliFid, b);
            var t := ReadFd(g, s, i).conn;
            && (p.fault.Some? ==> Dead(t) && t.log.dispatched == s.log.dispatched)
            && (p.fault.None? ==> t.log.dispatched == s.log.dispatched + v.frames)
            && (p.fault.None? && v.end.Waiting? ==>
                  && Ready(g, t) && t.aesKey == s.aesKey && t.ssid == s.ssid
                  && t.inBuf == v.end.rest == p.rest && t.lastCliFid == v.end.last)
            && (p.fault.None? && !v.end.Waiting? ==> Dead(t) && v.end == Rejected)
            && (!t.crashed ==> (ReadFd(g, s, i).ok <==> p.fault.Some? || v.end.Waiting?))
  {
    hide Close, Dispatch, ParseAll, ParseOne, Reference, SealedReader, Accepted;
    var r := SessionReader(g, s);
    var s1 := Append(s, Concat(i.chunks));
    var p := ParseAll(r, s1.inBuf);
    var s2 := s1.(inBuf := p.rest);
    BatchMatchesReference(r, s.ssid, s.lastCliFid, s1.inBuf);
    ParseAllStops(r, s1.inBuf);
    if p.fault.Some? {
      CloseQuiet(g, s2, ReasonFor(p.fault.value), true, i.atts);
    } else {
      DispatchIs(g, s2, p.frames, i.atts);
      var a := Accepted(s.ssid, s.lastCliFid, p.frames);
      CloseQuiet(g, Delivered(s2, a), INVALID_REQUEST, true, i.atts);
    }
  }

  /** However the reads are cut: nothing beyond the reference is dispatched, and
      exactly the reference's frames are if the whole stream parses, unless there
      was something to dispatch in the buffer and no read at all. */
  lemma {:induction false} CutReads(g: Config, s: Conn, ops: seq<Op>)
    requires Open(s) && AllReads(ops)
    ensures var b := s.inBuf + Received(ops);
            var v := Reference(SessionReader(g, s), s.ssid, s.lastCliFid, b);
            var t := Run(g, s, ops);
            && s.log.dispatched <= t.log.dispatched <= s.log.dispatched + v.frames
            && (ParseAll(SessionReader(g, s), b).fault.None? && (ops != [] || v.frames == []) ==>
                  t.log.dispatched == s.log.dispatched + v.frames)
    decreases |ops|
  {
    hide ParseAll, ParseOne, Reference, SealedReader, ReadFd, Concat;
    var r := SessionReader(g, s);
    if ops == [] {
      assert s.log.dispatched + [] == s.log.dispatched;
    } else {
      var i := ops[0].input;
      var x, y := Concat(i.chunks), Received(ops[1..]);
      var b := s.inBuf + x;
      var t := ReadFd(g, s, i).conn;
      assert Step(g, s, ops[0]) == t;
      OneRead(g, s, i);
      Joined(s.inBuf, x, y);
      ReferenceResumes(r, s.ssid, s.lastCliFid, b, y);
      ParseAllResumes(r, b, y);
      var v := Reference(r, s.ssid, s.lastCliFid, b);
      BatchMatchesReference(r, s.ssid, s.lastCliFid, b);
      if ParseAll(r, b).fault.None? && v.end.Waiting? {
        CutReads(g, t, ops[1..]);
        if ops[1..] == [] {
          assert t.inBuf + [] == t.inBuf;
          NothingYet(r, s.ssid, v.end.last, t.inBuf);
        }
        Between(s.log.dispatched, v.frames, Reference(r, s.ssid, v.end.last, v.end.rest + y).frames,
                Run(g, t, ops[1..]).log.dispatched);
      } else {
        DeadStaysDead(g, t, ops[1..]);
      }
    }
  }

  lemma Between<T>(d: seq<T>, v: seq<T>, w: seq<T>, e: seq<T>)
    requires d + v <= e <= d + v + w
    ensures d <= e <= d + (v + w)
    ensures e == d + v + w ==> e == d + (v + w)
  {
    Joined(d, v, w);
  }

  lemma NothingYet(r: Reader, ssid: U64, last: U32, b: Bytes)
    requires ParseOne(r, b) == Need
    ensures Reference(r, ssid, last, b) == Verdict([], Waiting(b, last))
    ensures ParseAll(r, b) == Parsed([], b, None)
  {
  }

  /** Every decodable frame is long enough to be looked at on its own. */
  ghost predicate LongFrames(r: Reader) {
    forall b: Bytes :: r.decode(b).Ok? ==> |b| >= MIN_FRAME_SIZE
  }

  lemma SealedFramesAreLong(c: Suite, key: Bytes, max: U32)
    ensures LongFrames(SealedReader(c, key, max))
  {
    hide DecodeBody;
  }

  lemma FrontGot(r: Reader, b: Bytes)
    requires LongFrames(r) && ParseOne(r, b).Got?
    ensures ParseOne(r, b[..ParseOne(r, b).size]) == ParseOne(r, b)
  {
    var size := ParseOne(r, b).size;
    var front := b[..size];
    assert front[..size] == front;
    assert front[..4] == b[..4];
    assert front[5..][..4] == b[5..][..4];
  }

  /** Where to cut so that exactly the first k frames are before the cut. */
  lemma {:induction false} CutAt(r: Reader, b: Bytes, k: nat) returns (cut: nat)
    requires LongFrames(r) && k <= |ParseAll(r, b).frames|
    ensures cut <= |b|
    ensures ParseAll(r, b[..cut]) == Parsed(ParseAll(r, b).frames[..k], [], None)
    decreases k
  {
    hide ParseOne, LongFrames;
    if k == 0 {
      NeedsMore(r, []);
      return 0;
    }
    var one := ParseOne(r, b);
    FrontGot(r, b);
    var tail := b[one.size..];
    var more := CutAt(r, tail, k - 1);
    cut := one.size + more;
    assert b[..cut] == b[..one.size] + tail[..more];
    ParseOneStable(r, b[..one.size], tail[..more]);
    assert b[..cut][one.size..] == tail[..more];
    assert ParseAll(r, b).frames[..k] == [one.frame] + ParseAll(r, tail).frames[..k - 1];
  }

  lemma {:induction false} AcceptedAgain(ssid: U64, last: U32, fs: seq<Frame>)
    ensures Accepted(ssid, last, Accepted(ssid, last, fs)) == Accepted(ssid, last, fs)
    decreases |fs|
  {
    if fs != [] && Fresh(ssid, last, fs[0]) {
      AcceptedAgain(ssid, fs[0].fid, fs[1..]);
    }
  }

  /** All ways of cutting x into reads dispatch the same requests. */
  ghost predicate CutProof(g: Config, s: Conn, x: Bytes) {
    forall a: seq<Op>, b: seq<Op> ::
      AllReads(a) && AllReads(b) && Received(a) == x && Received(b) == x
      ==> Run(g, s, a).log.dispatched == Run(g, s, b).log.dispatched
  }

  /** A read of x in the surroundings of i: its clock, random id and sends. */
  function ReadIn(i: Input, x: Bytes): Op {
    Read(Input([x], WouldBlock, i.now, i.ssid, i.atts))
  }

  ghost predicate AllIn(i: Input, ops: seq<Op>) {
    forall k :: 0 <= k < |ops| ==>
      ops[k].Read? && ops[k].input.now == i.now && ops[k].input.ssid == i.ssid && ops[k].input.atts == i.atts
  }

  lemma ReadInReceives(i: Input, x: Bytes, ops: seq<Op>)
    ensures Concat([x]) == x
    ensures AllReads(ops) ==> AllReads([ReadIn(i, x)] + ops)
    ensures AllIn(i, ops) ==> AllIn(i, [ReadIn(i, x)] + ops)
    ensures Received([ReadIn(i, x)] + ops) == x + Received(ops)
  {
    assert Concat([x]) == x + Concat([]);
    assert ([ReadIn(i, x)] + ops)[1..] == ops;
  }

  lemma RunFirst(g: Config, s: Conn, op: Op, ops: seq<Op>)
    ensures Run(g, s, [op] + ops) == Run(g, Step(g, s, op), ops)
  {
    hide Step;
    assert ([op] + ops)[1..] == ops;
  }

  /** The server is meant not to depend on how TCP cuts the stream. For an open
      session, whatever it has buffered, it does not exactly when the buffer is
      faulty already, or nothing before the first refused frame is dispatchable,
      or the whole parses to its end and there is something to read at all: a
      fault takes the good frames of its own read down with it, and whole frames
      left over from the handshake wait for the next read. */
  lemma CutProofIff(g: Config, s: Conn, x: Bytes)
    requires Open(s)
    ensures var r, b := SessionReader(g, s), s.inBuf + x;
            CutProof(g, s, x)
            <==> (|| ParseAll(r, s.inBuf).fault.Some?
                  || Reference(r, s.ssid, s.lastCliFid, b).frames == []
                  || (ParseAll(r, b).fault.None? && x != []))
  {
    hide ParseAll, ParseOne, Reference, SealedReader, ReadFd, Run, Received, AllReads;
    var r, b := SessionReader(g, s), s.inBuf + x;
    var v := Reference(r, s.ssid, s.lastCliFid, b);
    if ParseAll(r, s.inBuf).fault.Some? {
      forall a: seq<Op> | AllReads(a)
        ensures Run(g, s, a).log.dispatched == s.log.dispatched
      {
        FaultyBuffer(g, s, a);
      }
    } else if v.frames == [] || (ParseAll(r, b).fault.None? && x != []) {
      forall a: seq<Op> | AllReads(a) && Received(a) == x
        ensures Run(g, s, a).log.dispatched == s.log.dispatched + v.frames
      {
        CutReads(g, s, a);
        NoReads(a);
      }
    } else {
      var i := Input([], WouldBlock, 0, None, []);
      var none, some := CutsDiffer(g, s, x, i);
      assert Run(g, s, none).log.dispatched != Run(g, s, some).log.dispatched;
    }
  }

  lemma NoReads(ops: seq<Op>)
    ensures Received(ops) != [] ==> ops != []
  {
  }

  lemma FaultyBuffer(g: Config, s: Conn, ops: seq<Op>)
    requires Open(s) && AllReads(ops) && ParseAll(SessionReader(g, s), s.inBuf).fault.Some?
    ensures Run(g, s, ops).log.dispatched == s.log.dispatched
  {
    hide ParseAll, ParseOne, Reference, SealedReader, ReadFd, Concat;
    if ops != [] {
      var i := ops[0].input;
      ParseAllResumes(SessionReader(g, s), s.inBuf, Concat(i.chunks));
      OneRead(g, s, i);
      DeadStaysDead(g, Step(g, s, ops[0]), ops[1..]);
    }
  }

  /** Two ways of cutting that differ, one dispatching nothing. */
  lemma CutsDiffer(g: Config, s: Conn, x: Bytes, i: Input) returns (none: seq<Op>, some: seq<Op>)
    requires Open(s) && ParseAll(SessionReader(g, s), s.inBuf).fault.None?
    requires Reference(SessionReader(g, s), s.ssid, s.lastCliFid, s.inBuf + x).frames != []
    requires ParseAll(SessionReader(g, s), s.inBuf + x).fault.None? ==> x == []
    ensures AllReads(none) && AllIn(i, none) && Received(none) == x
    ensures AllReads(some) && AllIn(i, some) && Received(some) == x
    ensures Run(g, s, none).log.dispatched == s.log.dispatched
    ensures |Run(g, s, some).log.dispatched| > |s.log.dispatched|
  {
    hide ParseAll, ParseOne, Reference, SealedReader, ReadFd, Run;
    var cut := KeepsInTwoReads(g, s, x, i);
    some := [ReadIn(i, x[..cut])] + ([ReadIn(i, x[cut..])] + []);
    ReadInReceives(i, x[cut..], []);
    ReadInReceives(i, x[..cut], [ReadIn(i, x[cut..])] + []);
    assert x[..cut] + (x[cut..] + []) == x;
    if ParseAll(SessionReader(g, s), s.inBuf + x).fault.None? {
      none := [];
      assert Run(g, s, []) == s by { RunNothing(g, s); }
    } else {
      none := [ReadIn(i, x)] + [];
      ReadInReceives(i, x, []);
      assert x + [] == x;
      DropsInOneRead(g, s, x, i);
    }
  }

  lemma RunNothing(g: Config, s: Conn)
    ensures Run(g, s, []) == s
  {
  }

  lemma DropsInOneRead(g: Config, s: Conn, x: Bytes, i: Input)
    requires Open(s)
    requires ParseAll(SessionReader(g, s), s.inBuf + x).fault.Some?
    ensures Run(g, s, [ReadIn(i, x)] + []).log.dispatched == s.log.dispatched
  {
    hide ParseAll, ParseOne, Reference, SealedReader, ReadFd;
    ReadInReceives(i, x, []);
    OneRead(g, s, ReadIn(i, x).input);
    RunFirst(g, s, ReadIn(i, x), []);
  }

  /** A frame that was incomplete before x ends within x. */
  lemma CutWithin(r: Reader, buf: Bytes, x: Bytes, cut: nat)
    requires ParseOne(r, buf) == Need && cut <= |buf + x|
    requires ParseAll(r, (buf + x)[..cut]).frames != []
    ensures |buf| <= cut
  {
    hide ParseOne;
    if cut < |buf| {
      var front := (buf + x)[..cut];
      assert buf == front + buf[cut..];
      ParseOneStable(r, front, buf[cut..]);
    }
  }

  /** Where to cut x so that the first read has something to dispatch. */
  lemma FirstDispatch(g: Config, s: Conn, x: Bytes) returns (cut: nat)
    requires Open(s) && ParseAll(SessionReader(g, s), s.inBuf).fault.None?
    requires Reference(SessionReader(g, s), s.ssid, s.lastCliFid, s.inBuf + x).frames != []
    ensures cut <= |x|
    ensures ParseAll(SessionReader(g, s), s.inBuf + x[..cut]).fault.None?
    ensures Reference(SessionReader(g, s), s.ssid, s.lastCliFid, s.inBuf + x[..cut]).frames != []
  {
    hide ParseAll, ParseOne, Reference, SealedReader, Accepted;
    var r, b := SessionReader(g, s), s.inBuf + x;
    var q := ParseAll(r, s.inBuf);
    BatchMatchesReference(r, s.ssid, s.lastCliFid, b);
    ParseAllResumes(r, s.inBuf, x);
    if q.frames != [] {
      cut := 0;
      assert s.inBuf + x[..0] == s.inBuf;
      BatchMatchesReference(r, s.ssid, s.lastCliFid, s.inBuf);
      FirstAccepted(s.ssid, s.lastCliFid, q.frames, ParseAll(r, b).frames);
    } else {
      var a := Accepted(s.ssid, s.lastCliFid, ParseAll(r, b).frames);
      NothingTaken(r, s.inBuf);
      SealedFramesAreLong(g.suite, s.aesKey, g.maxFrameSize);
      var end := CutAt(r, b, |a|);
      assert ParseAll(r, b).frames[..|a|] == a;
      CutWithin(r, s.inBuf, x, end);
      cut := end - |s.inBuf|;
      assert s.inBuf + x[..cut] == b[..end];
      AcceptedAgain(s.ssid, s.lastCliFid, ParseAll(r, b).frames);
      BatchMatchesReference(r, s.ssid, s.lastCliFid, b[..end]);
    }
  }

  lemma FirstAccepted(ssid: U64, last: U32, fs: seq<Frame>, all: seq<Frame>)
    requires fs != [] && fs <= all && Accepted(ssid, last, all) != []
    ensures Accepted(ssid, last, fs) != []
  {
  }

  lemma NothingTaken(r: Reader, b: Bytes)
    requires ParseAll(r, b).frames == [] && ParseAll(r, b).fault.None?
    ensures ParseOne(r, b) == Need
  {
    hide ParseOne;
  }

  lemma KeepsInTwoReads(g: Config, s: Conn, x: Bytes, i: Input) returns (cut: nat)
    requires Open(s) && ParseAll(SessionReader(g, s), s.inBuf).fault.None?
    requires Reference(SessionReader(g, s), s.ssid, s.lastCliFid, s.inBuf + x).frames != []
    ensures cut <= |x|
    ensures |Run(g, s, [ReadIn(i, x[..cut])] + ([ReadIn(i, x[cut..])] + [])).log.dispatched| > |s.log.dispatched|
  {
    hide ParseAll, ParseOne, Reference, SealedReader, ReadFd, Run;
    cut := FirstDispatch(g, s, x);
    var y, z := x[..cut], x[cut..];
    ReadInReceives(i, z, []);
    ReadInReceives(i, y, []);
    OneRead(g, s, ReadIn(i, y).input);
    var t := Step(g, s, ReadIn(i, y));
    RunFirst(g, s, ReadIn(i, y), [ReadIn(i, z)] + []);
    if Open(t) {
      CutReads(g, t, [ReadIn(i, z)] + []);
    } else {
      DeadStaysDead(g, t, [ReadIn(i, z)] + []);
    }
  }

  /** Such a stream exists for every session: one acceptable request followed by
      anything that is not a frame. */
  lemma CutSensitiveStream(g: Config, s: Conn, f: Frame, iv: Bytes, junk: Bytes)
    requires Open(s) && s.inBuf == [] && Lawful(g.suite) && |s.aesKey| == KEY_SIZE && |iv| == IV_SIZE
    requires |f.path| < TWO16 && 57 + |f.path| + |f.data| <= g.maxFrameSize
    requires Fresh(s.ssid, s.lastCliFid, f) && |junk| >= MIN_FRAME_SIZE && !ValidateProtocol(junk)
    ensures var e := Encode(g.suite, f, true, s.aesKey, Some(iv), 0);
            e.Ok? && !CutProof(g, s, e.value + junk)
  {
    hide Lawful, Encode, SealedReader, CutProof, ParseOne;
    var r := SessionReader(g, s);
    SealedIsReadable(g.suite, s.aesKey, g.maxFrameSize, f, iv, 0);
    var p := Packet(f, Encode(g.suite, f, true, s.aesKey, Some(iv), 0).value);
    ReadableFirst(r, p, junk);
    NotAFrame(r, junk);
    assert ParseAll(r, junk).fault == Some(NotProtocol);
    assert (p.bytes + junk)[|p.bytes|..] == junk;
    assert s.inBuf + (p.bytes + junk) == p.bytes + junk;
    NeedsMore(r, []);
    CutProofIff(g, s, p.bytes + junk);
  }

  lemma NotAFrame(r: Reader, junk: Bytes)
    requires |junk| >= MIN_FRAME_SIZE && !ValidateProtocol(junk)
    ensures ParseOne(r, junk) == Bad(NotProtocol)
  {
  }

  // -------- from the handshake on --------

  /** A connection waiting for its handshake frame. */
  ghost predicate Shaking(g: Config, s: Conn) {
    && s.state == HANDSHAKE && !s.crashed && s.fd != -1 && s.aesKey == []
    && ParseOne(PlainReader(g.suite, g.maxFrameSize), s.inBuf) == Need
  }

  /** The session a handshake frame opens. */
  function Keyed(g: Config, s: Conn, f: Frame, i: Input): Conn
    requires GoodPayload(g, f.data, i.now) && i.ssid.Some?
  {
    s.(aesKey := g.suite.rsaOpen(f.data).value[..KEY_SIZE], ssid := i.ssid.value)
  }

  predicate OpensWith(g: Config, s: Conn, f: Frame, i: Input) {
    && GoodPayload(g, f.data, i.now) && i.ssid.Some? && i.atts != []
    && ReplyOut(g, Keyed(g, s, f, i), i.atts[0])
  }

  /** A connection that can read nothing more. */
  ghost predicate Numb(s: Conn) {
    s.crashed || s.fd == -1
  }

  lemma {:induction false} NumbStays(g: Config, s: Conn, ops: seq<Op>)
    requires Numb(s) && AllReads(ops)
    ensures Run(g, s, ops).log.dispatched == s.log.dispatched
    decreases |ops|
  {
    hide Close, Process, Concat;
    if ops != [] {
      CloseQuiet(g, s, SOCKET_ERROR, true, ops[0].input.atts);
      NumbStays(g, Step(g, s, ops[0]), ops[1..]);
    }
  }

  /** One read of a connection waiting for its handshake frame. */
  lemma OpeningRead(g: Config, s: Conn, i: Input)
    requires Shaking(g, s) && i.end == WouldBlock
    ensures var b := s.inBuf + Concat(i.chunks);
            var t := ReadFd(g, s, i).conn;
            match ParseOne(PlainReader(g.suite, g.maxFrameSize), b)
            case Need => t == Append(s, Concat(i.chunks))
            case Bad(_) => Numb(t) && t.log.dispatched == s.log.dispatched
            case Got(f, size) =>
              && t.log.dispatched == s.log.dispatched
              && (if !OpensWith(g, s, f, i) then Numb(t)
                  else
                    var k := Keyed(g, s, f, i);
                    && Open(t) && t.aesKey == k.aesKey && t.ssid == k.ssid
                    && t.inBuf == b[size..] && t.lastCliFid == s.lastCliFid)
  {
    hide ParseOne, PlainReader, Close, Send, Concat, Timely, Handshake, ReplyOut, Encode;
    var s1 := Append(s, Concat(i.chunks));
    match ParseOne(PlainReader(g.suite, g.maxFrameSize), s1.inBuf)
    case Need => ReadInHandshake(g, s, i);
    case Bad(fault) =>
      CloseWithoutKey(g, s1, ReasonFor(fault), true, i.atts);
      CloseQuiet(g, s1, ReasonFor(fault), true, i.atts);
    case Got(f, size) =>
      ReadInHandshake(g, s, i);
      PayloadRead(g, s, s1.(inBuf := s1.inBuf[size..]), f, i);
  }

  lemma PayloadRead(g: Config, s: Conn, s2: Conn, f: Frame, i: Input)
    requires s2.state == HANDSHAKE && !s2.crashed && s2.fd != -1 && s2.aesKey == []
    requires s2.fd == s.fd && s2.fid == s.fid
    ensures var t := Handshake(g, s2, f.data, i.now, i.ssid, i.atts).conn;
            && t.log.dispatched == s2.log.dispatched
            && (if !OpensWith(g, s, f, i) then Numb(t)
                else
                  var k := Keyed(g, s, f, i);
                  && Open(t) && t.aesKey == k.aesKey && t.ssid == k.ssid
                  && t.inBuf == s2.inBuf && t.lastCliFid == s2.lastCliFid)
  {
    hide Close, Send, Timely, Encode;
    CloseQuiet(g, s2, ENCRYPTION_ERROR, true, i.atts);
    if GoodPayload(g, f.data, i.now) {
      var s3 := s2.(aesKey := g.suite.rsaOpen(f.data).value[..KEY_SIZE]);
      CloseQuiet(g, s3, ENCRYPTION_ERROR, true, i.atts);
      if i.ssid.Some? {
        var s4 := s3.(ssid := i.ssid.value,
                      log := s3.log.(prefix := |s2.log.received| - Min(|s2.inBuf|, |s2.log.received|)));
        SendQuiet(g, s4, SecuredFrame(s4), i.atts);
        ReplyIs(g, s4, i.atts);
      }
    } else {
      CloseWithoutKey(g, s2, ENCRYPTION_ERROR, true, i.atts);
    }
  }

  /** Any reads of such a connection, told by all the bytes. */
  lemma {:induction false} ShakingRuns(g: Config, s: Conn, ops: seq<Op>, i: Input)
    requires Shaking(g, s) && AllReads(ops) && AllIn(i, ops)
    ensures var b := s.inBuf + Received(ops);
            var one := ParseOne(PlainReader(g.suite, g.maxFrameSize), b);
            var done := Run(g, s, ops).log.dispatched;
            if one.Got? && OpensWith(g, s, one.frame, i) then
              var k := Keyed(g, s, one.frame, i);
              s.log.dispatched <= done
              <= s.log.dispatched + Reference(SessionReader(g, k), k.ssid, s.lastCliFid, b[one.size..]).frames
            else done == s.log.dispatched
    decreases |ops|
  {
    hide ParseOne, PlainReader, SealedReader, Reference, ReadFd, Concat, ReplyOut, GoodPayload;
    var r := PlainReader(g.suite, g.maxFrameSize);
    if ops == [] {
      assert s.inBuf + [] == s.inBuf;
    } else {
      var j := ops[0].input;
      var x, y := Concat(j.chunks), Received(ops[1..]);
      var b := s.inBuf + x;
      var one := ParseOne(r, b);
      var t := Step(g, s, ops[0]);
      Joined(s.inBuf, x, y);
      OpeningRead(g, s, j);
      if one.Need? {
        ShakingRuns(g, t, ops[1..], i);
        SameOpening(g, s, t, i);
      } else {
        ParseOneStable(r, b, y);
        if one.Got? && OpensWith(g, s, one.frame, i) {
          CutReads(g, t, ops[1..]);
          assert (b + y)[one.size..] == b[one.size..] + y;
        } else {
          NumbStays(g, t, ops[1..]);
        }
      }
    }
  }

  lemma SameOpening(g: Config, s: Conn, t: Conn, i: Input)
    requires t.fd == s.fd && t.fid == s.fid
    ensures forall f :: OpensWith(g, t, f, i) == OpensWith(g, s, f, i)
  {
    hide Encode, GoodPayload;
  }

  ghost predicate CutProofIn(g: Config, s: Conn, x: Bytes, i: Input) {
    forall a: seq<Op>, b: seq<Op> ::
      AllReads(a) && AllReads(b) && AllIn(i, a) && AllIn(i, b) && Received(a) == x && Received(b) == x
      ==> Run(g, s, a).log.dispatched == Run(g, s, b).log.dispatched
  }

  /** From the handshake on, in the same surroundings: what is dispatched is
      independent of the cutting exactly if the bytes do not open a session, or
      there is nothing to dispatch in what follows the handshake frame. What
      follows it in the same read waits for the next one. */
  lemma FreshCutProofIff(g: Config, s: Conn, x: Bytes, i: Input)
    requires Shaking(g, s)
    ensures var b := s.inBuf + x;
            var one := ParseOne(PlainReader(g.suite, g.maxFrameSize), b);
            CutProofIn(g, s, x, i)
            <==> (one.Got? && OpensWith(g, s, one.frame, i) ==>
                    var k := Keyed(g, s, one.frame, i);
                    Reference(SessionReader(g, k), k.ssid, s.lastCliFid, b[one.size..]).frames == [])
  {
    hide ParseOne, PlainReader, SealedReader, Reference, Run, Received, AllReads, AllIn, ReplyOut, GoodPayload;
    var b := s.inBuf + x;
    var one := ParseOne(PlainReader(g.suite, g.maxFrameSize), b);
    if one.Got? && OpensWith(g, s, one.frame, i) && !Quenched(g, s, one.frame, i, b[one.size..]) {
      var none, some := OpeningDiffers(g, s, x, i);
      assert Run(g, s, none).log.dispatched != Run(g, s, some).log.dispatched;
    } else {
      forall a: seq<Op> | AllReads(a) && AllIn(i, a) && Received(a) == x
        ensures Run(g, s, a).log.dispatched == s.log.dispatched
      {
        ShakingRuns(g, s, a, i);
        assert s.log.dispatched + [] == s.log.dispatched;
      }
    }
  }

  /** The session opened has nothing to dispatch in these bytes. */
  predicate Quenched(g: Config, s: Conn, f: Frame, i: Input, tail: Bytes)
    requires GoodPayload(g, f.data, i.now) && i.ssid.Some?
  {
    var k := Keyed(g, s, f, i);
    Reference(SessionReader(g, k), k.ssid, s.lastCliFid, tail).frames == []
  }

  lemma PlainFramesAreLong(c: Suite, max: U32)
    ensures LongFrames(PlainReader(c, max))
  {
    hide PtrToU16, PtrToU32, PtrToU64;
  }

  /** One read of everything. */
  lemma OpenedInOneRead(g: Config, s: Conn, x: Bytes, i: Input)
    requires Shaking(g, s)
    requires var one := ParseOne(PlainReader(g.suite, g.maxFrameSize), s.inBuf + x);
             one.Got? && OpensWith(g, s, one.frame, i)
    ensures var none := [ReadIn(i, x)] + [];
            && AllReads(none) && AllIn(i, none) && Received(none) == x
            && Run(g, s, none).log.dispatched == s.log.dispatched
  {
    hide ParseOne, PlainReader, SealedReader, Run, ReadFd, OpensWith, Received, AllReads, AllIn;
    var one := ParseOne(PlainReader(g.suite, g.maxFrameSize), s.inBuf + x);
    NothingReceived(i);
    ReadInReceives(i, x, []);
    assert x + [] == x;
    OpeningRead(g, s, ReadIn(i, x).input);
    SameSurroundings(g, s, one.frame, i, ReadIn(i, x).input);
    RunFirst(g, s, ReadIn(i, x), []);
    RunNothing(g, Step(g, s, ReadIn(i, x)));
  }

  /** The handshake frame in a read of its own: h is what of x belongs to it. */
  lemma OpenedFirst(g: Config, s: Conn, x: Bytes, i: Input) returns (h: Bytes, tail: Bytes)
    requires Shaking(g, s)
    requires var one := ParseOne(PlainReader(g.suite, g.maxFrameSize), s.inBuf + x);
             one.Got? && OpensWith(g, s, one.frame, i)
    ensures x == h + tail
    ensures var one := ParseOne(PlainReader(g.suite, g.maxFrameSize), s.inBuf + x);
            && tail == (s.inBuf + x)[one.size..]
            && var k, t := Keyed(g, s, one.frame, i), Step(g, s, ReadIn(i, h));
               && Open(t) && t.aesKey == k.aesKey && t.ssid == k.ssid && t.lastCliFid == s.lastCliFid
               && t.inBuf == [] && t.log.dispatched == s.log.dispatched
  {
    hide ParseOne, PlainReader, ReadFd, ReplyOut, GoodPayload;
    var r, b := PlainReader(g.suite, g.maxFrameSize), s.inBuf + x;
    var one := ParseOne(r, b);
    PlainFramesAreLong(g.suite, g.maxFrameSize);
    FrontGot(r, b);
    HandshakeEndsIn(r, s.inBuf, x);
    var c := one.size - |s.inBuf|;
    h, tail := x[..c], x[c..];
    assert s.inBuf + h == b[..one.size] && b[one.size..] == tail;
    ReadInReceives(i, h, []);
    OpeningRead(g, s, ReadIn(i, h).input);
    SameSurroundings(g, s, one.frame, i, ReadIn(i, h).input);
  }

  /** One read of everything, against the handshake frame first. */
  lemma OpeningDiffers(g: Config, s: Conn, x: Bytes, i: Input) returns (none: seq<Op>, some: seq<Op>)
    requires Shaking(g, s)
    requires var one := ParseOne(PlainReader(g.suite, g.maxFrameSize), s.inBuf + x);
             && one.Got? && OpensWith(g, s, one.frame, i)
             && !Quenched(g, s, one.frame, i, (s.inBuf + x)[one.size..])
    ensures AllReads(none) && AllIn(i, none) && Received(none) == x
    ensures AllReads(some) && AllIn(i, some) && Received(some) == x
    ensures Run(g, s, none).log.dispatched == s.log.dispatched
    ensures |Run(g, s, some).log.dispatched| > |s.log.dispatched|
  {
    hide ParseOne, ParseAll, PlainReader, SealedReader, Reference, Run, Step, OpensWith;
    hide Received, AllReads, AllIn, Shaking;
    OpenedInOneRead(g, s, x, i);
    none := [ReadIn(i, x)] + [];
    NothingReceived(i);
    var h, tail := OpenedFirst(g, s, x, i);
    var t := Step(g, s, ReadIn(i, h));
    assert t.inBuf + tail == tail;
    NeedsMore(SessionReader(g, t), []);
    NothingYet(SessionReader(g, t), t.ssid, t.lastCliFid, []);
    var cut := KeepsInTwoReads(g, t, tail, i);
    var rest := [ReadIn(i, tail[..cut])] + ([ReadIn(i, tail[cut..])] + []);
    ReadInReceives(i, tail[cut..], []);
    ReadInReceives(i, tail[..cut], [ReadIn(i, tail[cut..])] + []);
    ReadInReceives(i, h, rest);
    assert h + (tail[..cut] + (tail[cut..] + [])) == x;
    some := [ReadIn(i, h)] + rest;
    RunFirst(g, s, ReadIn(i, h), rest);
  }

  lemma NothingReceived(i: Input)
    ensures Received([]) == [] && AllReads([]) && AllIn(i, [])
  {
  }

  lemma SameSurroundings(g: Config, s: Conn, f: Frame, i: Input, j: Input)
    requires j.now == i.now && j.ssid == i.ssid && j.atts == i.atts
    ensures OpensWith(g, s, f, j) == OpensWith(g, s, f, i)
    ensures OpensWith(g, s, f, i) ==> Keyed(g, s, f, j) == Keyed(g, s, f, i)
  {
    hide Encode, GoodPayload;
  }

  lemma HandshakeEndsIn(r: Reader, buf: Bytes, x: Bytes)
    requires ParseOne(r, buf) == Need && ParseOne(r, buf + x).Got?
    requires ParseOne(r, (buf + x)[..ParseOne(r, buf + x).size]) == ParseOne(r, buf + x)
    ensures |buf| <= ParseOne(r, buf + x).size
  {
    hide ParseOne;
    var size := ParseOne(r, buf + x).size;
    if size < |buf| {
      var front := (buf + x)[..size];
      assert buf == front + buf[size..];
      ParseOneStable(r, front, buf[size..]);
    }
  }
}
