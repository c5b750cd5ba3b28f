/** The incremental frame parser shared by both ends (server/structures.cpp:71-116,
    client/Connection.cpp:93-138), and a one-frame-at-a-time reference
    parser-validator to compare the two ends with. */
module Parsing {
  import opened Encoders
  import opened Crypto
  import opened Frames

  /** How a connection currently decodes what it reads. The parser laws hold for
      any decoder; the two ends use `PlainReader` and `SealedReader`. */
  datatype Reader = Reader(decode: Bytes -> Result<Frame>, maxFrameSize: U32)

  function PlainReader(c: Suite, maxFrameSize: U32): Reader {
    Reader((b: Bytes) => Decode(c, b, false, []), maxFrameSize)
  }

  function SealedReader(c: Suite, key: Bytes, maxFrameSize: U32): Reader {
    Reader((b: Bytes) => Decode(c, b, true, key), maxFrameSize)
  }

  datatype Fault = NotProtocol | TooLong | Undecodable(failure: Failure)

  /** What the front of a buffer holds. */
  datatype Progress = Need | Bad(fault: Fault) | Got(frame: Frame, size: nat)

  /** One turn of the parse loop. `bodyLen + 9` is 64-bit in the source, so it
      does not wrap. */
  function ParseOne(r: Reader, b: Bytes): (p: Progress)
    ensures p.Got? ==> HEADER_SIZE <= p.size <= |b| && p.size <= r.maxFrameSize
    ensures p.Got? ==> r.decode(b[..p.size]) == Ok(p.frame)
  {
    if |b| < MIN_FRAME_SIZE then Need
    else if !ValidateProtocol(b) then Bad(NotProtocol)
    else
      var size := FrameBodySize(b) + HEADER_SIZE;
      if FrameBodySize(b) > r.maxFrameSize || size > r.maxFrameSize then Bad(TooLong)
      else if |b| < size then Need
      else
        match r.decode(b[..size])
        case Err(e) => Bad(Undecodable(e))
        case Ok(f) => Got(f, size)
  }

  /** Success and failure are final: more bytes change neither. */
  lemma ParseOneStable(r: Reader, b: Bytes, x: Bytes)
    requires !ParseOne(r, b).Need?
    ensures ParseOne(r, b + x) == ParseOne(r, b)
  {
    assert (b + x)[..4] == b[..4];
    assert (b + x)[5..][..4] == b[5..][..4];
    var size := FrameBodySize(b) + HEADER_SIZE;
    if size <= |b| {
      assert (b + x)[..size] == b[..size];
    }
  }

  /** A frame is recognised exactly when its last byte is there. */
  lemma StrictPrefixNeedsMore(r: Reader, whole: Bytes, p: Bytes)
    requires ParseOne(r, whole).Got? && ParseOne(r, whole).size == |whole|
    requires p < whole
    ensures ParseOne(r, p) == Need
  {
    if |p| >= MIN_FRAME_SIZE {
      assert p[..4] == whole[..4];
      assert p[5..][..4] == whole[5..][..4];
    }
  }

  // -------- the whole loop --------

  datatype Parsed = Parsed(frames: seq<Frame>, rest: Bytes, fault: Option<Fault>)

  function ParseAll(r: Reader, b: Bytes): Parsed
    decreases |b|
  {
    match ParseOne(r, b)
    case Need => Parsed([], b, None)
    case Bad(fault) => Parsed([], b, Some(fault))
    case Got(f, size) =>
      var tail := ParseAll(r, b[size..]);
      tail.(frames := [f] + tail.frames)
  }

  /** The byte strings the parsed frames came from. */
  ghost function Raws(r: Reader, b: Bytes): seq<Bytes>
    decreases |b|
  {
    match ParseOne(r, b)
    case Got(f, size) => [b[..size]] + Raws(r, b[size..])
    case _ => []
  }

  /** Nothing is lost or made up: the raw frames followed by the residual are the
      input, and each raw frame decodes to the frame delivered for it. */
  lemma {:induction false} ParseAllConserves(r: Reader, b: Bytes)
    ensures Concat(Raws(r, b)) + ParseAll(r, b).rest == b
    ensures |Raws(r, b)| == |ParseAll(r, b).frames|
    ensures forall i :: 0 <= i < |Raws(r, b)| ==>
              r.decode(Raws(r, b)[i]) == Ok(ParseAll(r, b).frames[i])
    decreases |b|
  {
    var one := ParseOne(r, b);
    if one.Got? {
      var tail := b[one.size..];
      ParseAllConserves(r, tail);
      assert b == b[..one.size] + tail;
      assert Raws(r, b)[1..] == Raws(r, tail);
    } else {
      assert Raws(r, b) == [];
    }
  }

  /** Fewer than 29 bytes always wait, whatever they are; with 29 the first four
      decide, and anything but "fmxp" is a fault. */
  lemma FrontDecides(r: Reader, b: Bytes)
    ensures |b| < 29 ==> ParseOne(r, b) == Need
    ensures |b| >= 29 ==> (ParseOne(r, b) == Bad(NotProtocol) <==> b[..4] != [0x66, 0x6d, 0x78, 0x70])
  {
  }

  /** The loop stops only where a single turn would: short of a frame, with less
      than one maximal frame left over, or at the fault it reports. */
  lemma {:induction false} ParseAllStops(r: Reader, b: Bytes)
    ensures var p := ParseAll(r, b);
            ParseOne(r, p.rest) == if p.fault.None? then Need else Bad(p.fault.value)
    ensures var p := ParseAll(r, b);
            p.fault.None? ==> |p.rest| < MIN_FRAME_SIZE || |p.rest| < r.maxFrameSize
    decreases |b|
  {
    var one := ParseOne(r, b);
    if one.Got? {
      ParseAllStops(r, b[one.size..]);
    }
  }

  /** Parsing on from a pause gives what parsing in one go gives, and a fault stays. */
  lemma {:induction false} ParseAllResumes(r: Reader, b: Bytes, x: Bytes)
    ensures var p := ParseAll(r, b);
            var q := ParseAll(r, p.rest + x);
            ParseAll(r, b + x) == if p.fault.Some? then p.(rest := p.rest + x) else q.(frames := p.frames + q.frames)
    decreases |b|
  {
    hide ParseOne;
    var one := ParseOne(r, b);
    if one.Got? {
      ParseOneStable(r, b, x);
      assert (b + x)[one.size..] == b[one.size..] + x;
      ParseAllResumes(r, b[one.size..], x);
      var p := ParseAll(r, b[one.size..]);
      var q := ParseAll(r, p.rest + x);
      Joined([one.frame], p.frames, q.frames);
    } else {
      if one.Bad? {
        ParseOneStable(r, b, x);
      }
      var q := ParseAll(r, b + x);
      assert [] + q.frames == q.frames;
    }
  }

  // -------- validation --------

  /** The session check of both ends: right session, strictly newer frame id. */
  predicate Fresh(ssid: U64, last: U32, f: Frame) {
    f.ssid == ssid && f.fid > last
  }

  /** The frames a batch gets through before the first one refused. */
  function Accepted(ssid: U64, last: U32, fs: seq<Frame>): (a: seq<Frame>)
    ensures a <= fs
    ensures a != fs ==> !Fresh(ssid, LastFid(last, a), fs[|a|])
    decreases |fs|
  {
    if fs == [] || !Fresh(ssid, last, fs[0]) then []
    else
      var a := Accepted(ssid, fs[0].fid, fs[1..]);
      assert [fs[0]] + fs[1..] == fs;
      [fs[0]] + a
  }

  function LastFid(last: U32, fs: seq<Frame>): U32 {
    if fs == [] then last else fs[|fs| - 1].fid
  }

  /** Frame ids strictly increase, start above `last`, and all carry `ssid`. */
  ghost predicate Ordered(ssid: U64, last: int, fs: seq<Frame>) {
    && (forall i :: 0 <= i < |fs| ==> fs[i].ssid == ssid && fs[i].fid > last)
    && (forall i, j :: 0 <= i < j < |fs| ==> fs[i].fid < fs[j].fid)
  }

  lemma {:induction false} AcceptedOrdered(ssid: U64, last: U32, fs: seq<Frame>)
    ensures Ordered(ssid, last, Accepted(ssid, last, fs))
    decreases |fs|
  {
    if fs != [] && Fresh(ssid, last, fs[0]) {
      AcceptedOrdered(ssid, fs[0].fid, fs[1..]);
    }
  }

  lemma OrderedAppend(ssid: U64, last: U32, a: seq<Frame>, b: seq<Frame>)
    requires Ordered(ssid, last, a) && Ordered(ssid, LastFid(last, a), b)
    ensures Ordered(ssid, last, a + b)
  {
    forall i, j | 0 <= i < j < |a + b|
      ensures (a + b)[i].fid < (a + b)[j].fid
    {
      if i < |a| <= j {
        assert a[i].fid <= LastFid(last, a) < b[j - |a|].fid;
      }
    }
  }

  /** An ordered list above `last` is no longer than the ids left: no id is
      handled twice and a session handles fewer than 2^32 frames. */
  lemma {:induction false} OrderedBound(ssid: U64, last: int, fs: seq<Frame>)
    requires Ordered(ssid, last, fs) && -1 <= last < TWO32
    ensures |fs| <= TWO32 - 1 - last
    decreases |fs|
  {
    if fs != [] {
      assert Ordered(ssid, fs[0].fid, fs[1..]);
      OrderedBound(ssid, fs[0].fid, fs[1..]);
    }
  }

  // -------- the reference parser-validator --------

  datatype End = Waiting(rest: Bytes, last: U32) | Rejected | Broken(fault: Fault)
  datatype Verdict = Verdict(frames: seq<Frame>, end: End)

  /** Take one frame, check it, hand it over, go on with what follows it. */
  function Reference(r: Reader, ssid: U64, last: U32, b: Bytes): Verdict
    decreases |b|
  {
    match ParseOne(r, b)
    case Need => Verdict([], Waiting(b, last))
    case Bad(fault) => Verdict([], Broken(fault))
    case Got(f, size) =>
      if !Fresh(ssid, last, f) then Verdict([], Rejected)
      else
        var v := Reference(r, ssid, f.fid, b[size..]);
        v.(frames := [f] + v.frames)
  }

  /** What a verdict becomes once it is known how the rest of the stream goes. */
  function Continue(v: Verdict, w: Verdict): Verdict {
    if v.end.Waiting? then w.(frames := v.frames + w.frames) else v
  }

  /** Reading on from a pause gives what reading in one go gives. */
  lemma {:induction false} ReferenceResumes(r: Reader, ssid: U64, last: U32, b: Bytes, x: Bytes)
    ensures var v := Reference(r, ssid, last, b);
            Reference(r, ssid, last, b + x)
            == if v.end.Waiting? then Continue(v, Reference(r, ssid, v.end.last, v.end.rest + x)) else v
    decreases |b|
  {
    match ParseOne(r, b)
    case Need =>
      var w := Reference(r, ssid, last, b + x);
      assert [] + w.frames == w.frames;
    case Bad(_) =>
      ParseOneStable(r, b, x);
    case Got(f, size) =>
      ParseOneStable(r, b, x);
      assert (b + x)[size..] == b[size..] + x;
      if Fresh(ssid, last, f) {
        ReferenceResumes(r, ssid, f.fid, b[size..], x);
        var v := Reference(r, ssid, f.fid, b[size..]);
        if v.end.Waiting? {
          var w := Reference(r, ssid, v.end.last, v.end.rest + x);
          assert [f] + (v.frames + w.frames) == [f] + v.frames + w.frames;
        }
      }
  }

  lemma ReferenceMonotone(r: Reader, ssid: U64, last: U32, b: Bytes, x: Bytes)
    ensures Reference(r, ssid, last, b).frames <= Reference(r, ssid, last, b + x).frames
  {
    ReferenceResumes(r, ssid, last, b, x);
  }

  /** Parsing a whole batch and then validating it, as both ends do, hands over
      exactly the reference's frames, and stops for the reference's reason. */
  lemma {:induction false} BatchMatchesReference(r: Reader, ssid: U64, last: U32, b: Bytes)
    ensures var p := ParseAll(r, b);
            var a := Accepted(ssid, last, p.frames);
            Reference(r, ssid, last, b)
            == Verdict(a, if |a| < |p.frames| then Rejected
                          else if p.fault.Some? then Broken(p.fault.value)
                          else Waiting(p.rest, LastFid(last, a)))
    decreases |b|
  {
    match ParseOne(r, b)
    case Need =>
    case Bad(_) =>
    case Got(f, size) =>
      if Fresh(ssid, last, f) {
        BatchMatchesReference(r, ssid, f.fid, b[size..]);
        var p := ParseAll(r, b);
        assert p.frames[1..] == ParseAll(r, b[size..]).frames;
      }
  }

  lemma ReferenceOrdered(r: Reader, ssid: U64, last: U32, b: Bytes)
    ensures Ordered(ssid, last, Reference(r, ssid, last, b).frames)
  {
    BatchMatchesReference(r, ssid, last, b);
    AcceptedOrdered(ssid, last, ParseAll(r, b).frames);
  }

  // -------- streams of well-formed encodings --------

  /** A frame together with the bytes that carry it. */
  datatype Packet = Packet(frame: Frame, bytes: Bytes)

  function Stream(ps: seq<Packet>): Bytes {
    if ps == [] then [] else ps[0].bytes + Stream(ps[1..])
  }

  function Payloads(ps: seq<Packet>): (fs: seq<Frame>)
    ensures |fs| == |ps| && forall i :: 0 <= i < |ps| ==> fs[i] == ps[i].frame
  {
    seq(|ps|, i requires 0 <= i < |ps| => ps[i].frame)
  }

  ghost predicate Readable(r: Reader, p: Packet) {
    ParseOne(r, p.bytes) == Got(p.frame, |p.bytes|)
  }

  ghost predicate AllReadable(r: Reader, ps: seq<Packet>) {
    forall i :: 0 <= i < |ps| ==> Readable(r, ps[i])
  }

  lemma {:induction false} StreamAppend(ps: seq<Packet>, qs: seq<Packet>)
    ensures Stream(ps + qs) == Stream(ps) + Stream(qs)
  {
    if ps == [] {
      assert ps + qs == qs;
    } else {
      StreamAppend(ps[1..], qs);
      assert (ps + qs)[0] == ps[0] && (ps + qs)[1..] == ps[1..] + qs;
      Joined(ps[0].bytes, Stream(ps[1..]), Stream(qs));
    }
  }

  lemma StreamPush(ps: seq<Packet>, p: Packet)
    ensures Stream(ps + [p]) == Stream(ps) + p.bytes
  {
    StreamAppend(ps, [p]);
    assert [p][1..] == [];
    assert Stream([p]) == p.bytes + Stream([]);
  }

  lemma ReadableFirst(r: Reader, p: Packet, tail: Bytes)
    requires Readable(r, p)
    ensures ParseOne(r, p.bytes + tail) == Got(p.frame, |p.bytes|)
    ensures ParseAll(r, p.bytes + tail)
         == ParseAll(r, tail).(frames := [p.frame] + ParseAll(r, tail).frames)
  {
    ParseOneStable(r, p.bytes, tail);
    assert (p.bytes + tail)[|p.bytes|..] == tail;
  }

  /** Any cut through a stream of well-formed packets parses into the packets
      wholly before the cut and leaves the started one unread. */
  lemma {:induction false} CutStream(r: Reader, ps: seq<Packet>, b: Bytes, later: Bytes) returns (k: nat)
    requires AllReadable(r, ps) && b + later == Stream(ps)
    ensures k <= |ps|
    ensures ParseAll(r, b) == Parsed(Payloads(ps[..k]), ParseAll(r, b).rest, None)
    ensures ParseAll(r, b).rest + later == Stream(ps[k..])
    ensures later == [] ==> k == |ps|
  {
    hide ParseOne, Readable, Payloads;
    if ps == [] {
      assert b == [] && later == [];
      NeedsMore(r, b);
      assert Payloads([]) == [];
      assert ps[..0] == [] && ps[0..] == [];
      return 0;
    }
    assert Readable(r, ps[0]);
    if |b| < |ps[0].bytes| {
      CutBeforeFirst(r, ps, b, later);
      assert ps[0..] == ps && ps[..0] == [];
      assert Payloads([]) == [];
      k := 0;
    } else {
      var tail := b[|ps[0].bytes|..];
      CutAfterFirst(ps, b, later);
      ReadableFirst(r, ps[0], tail);
      var j := CutStream(r, ps[1..], tail, later);
      k := j + 1;
      assert ps[1..][j..] == ps[k..];
      PayloadsFirst(ps, j);
    }
  }

  lemma NeedsMore(r: Reader, b: Bytes)
    requires |b| < MIN_FRAME_SIZE
    ensures ParseOne(r, b) == Need
  {
  }

  lemma PayloadsFirst(ps: seq<Packet>, j: nat)
    requires j < |ps|
    ensures Payloads(ps[..j + 1]) == [ps[0].frame] + Payloads(ps[1..][..j])
  {
  }

  lemma CutBeforeFirst(r: Reader, ps: seq<Packet>, b: Bytes, later: Bytes)
    requires ps != [] && Readable(r, ps[0])
    requires b + later == Stream(ps) && |b| < |ps[0].bytes|
    ensures ParseOne(r, b) == Need
  {
    var first := ps[0].bytes;
    assert b == (b + later)[..|b|] == first[..|b|];
    StrictPrefixNeedsMore(r, first, b);
  }

  lemma CutAfterFirst(ps: seq<Packet>, b: Bytes, later: Bytes)
    requires ps != []
    requires b + later == Stream(ps) && |b| >= |ps[0].bytes|
    ensures b == ps[0].bytes + b[|ps[0].bytes|..]
    ensures b[|ps[0].bytes|..] + later == Stream(ps[1..])
  {
    var n := |ps[0].bytes|;
    assert b[..n] == Stream(ps)[..n] == ps[0].bytes;
    assert b[n..] + later == (b + later)[n..];
  }

  /** An encrypted encoding that fits the receiver's limit is well formed for it. */
  lemma SealedIsReadable(c: Suite, key: Bytes, max: U32, f: Frame, iv: Bytes, replacement: U32)
    requires Lawful(c) && |key| == KEY_SIZE && |iv| == IV_SIZE
    requires |f.path| < TWO16 && 57 + |f.path| + |f.data| <= max
    ensures var e := Encode(c, f, true, key, Some(iv), replacement);
            && e.Ok? && |e.value| == 57 + |f.path| + |f.data|
            && Readable(SealedReader(c, key, max), Packet(f.(fid := WireFid(f, replacement)), e.value))
  {
    SealedRoundTrip(c, f, key, iv, replacement);
    var e := Encode(c, f, true, key, Some(iv), replacement).value;
    WholeIsReadable(SealedReader(c, key, max), f.(fid := WireFid(f, replacement)), e);
  }

  lemma PlainIsReadable(c: Suite, max: U32, f: Frame)
    requires |f.path| < TWO16 && MIN_FRAME_SIZE + |f.path| + |f.data| <= max
    ensures Readable(PlainReader(c, max), Packet(f, EncodePlain(f, 0)))
  {
    PlainRoundTrip(c, f, [], 0);
    HeaderReads(Body(f, 0));
    WholeIsReadable(PlainReader(c, max), f, EncodePlain(f, 0));
  }

  lemma WholeIsReadable(r: Reader, f: Frame, e: Bytes)
    requires MIN_FRAME_SIZE <= |e| <= r.maxFrameSize && ValidateProtocol(e)
    requires FrameBodySize(e) == |e| - HEADER_SIZE && r.decode(e) == Ok(f)
    ensures Readable(r, Packet(f, e))
  {
    assert e[..|e|] == e;
  }
}
