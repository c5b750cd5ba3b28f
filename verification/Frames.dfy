/** The frame codec (core/frame.cpp).

    fmxp <version:1> <size:4> | <rid:4> <fid:4> <ssid:8> <flags:1> <status:1> <path_len:2> <path> <data>

    The part after the bar is the body; on every frame but the client's first it
    is encrypted, and <size> is then the size of the encrypted body. */
module Frames {
  import opened Encoders
  import opened Crypto

  const VERSION: Byte := 1
  const HEADER_SIZE: nat := 9
  const BODY_HEADER_SIZE: nat := 20
  const MIN_FRAME_SIZE: nat := 29
  const STATUS_REQ: Byte := 0
  const STATUS_OK: Byte := 1
  const STATUS_NOT_FOUND: Byte := 4

  /** The four characters "fmxp". */
  const MAGIC: Bytes := [0x66, 0x6d, 0x78, 0x70]

  datatype Frame = Frame(
    fid: U32, rid: U32, ssid: U64, status: Byte, flags: Byte, path: Bytes, data: Bytes)

  // -------- encoding --------

  /** The frame id that goes on the wire: the replacement, unless it is zero. */
  function WireFid(f: Frame, replacement: U32): U32 {
    if replacement == 0 then f.fid else replacement
  }

  /** The fixed 20 bytes of a body. The path size is cast to 16 bits. */
  function BodyHeader(f: Frame, replacement: U32): (h: Bytes)
    ensures |h| == BODY_HEADER_SIZE
  {
    BigEndian(4, f.rid) + BigEndian(4, WireFid(f, replacement)) + BigEndian(8, f.ssid)
    + [f.flags] + [f.status] + BigEndian(2, |f.path| % TWO16)
  }

  function Body(f: Frame, replacement: U32): (b: Bytes)
    ensures |b| == BODY_HEADER_SIZE + |f.path| + |f.data|
  {
    BodyHeader(f, replacement) + f.path + f.data
  }

  /** Protocol name, version and body size; the size is cast to 32 bits. */
  function Header(bodySize: nat): (h: Bytes)
    ensures |h| == HEADER_SIZE
  {
    MAGIC + [VERSION] + BigEndian(4, bodySize % TWO32)
  }

  function EncodePlain(f: Frame, replacement: U32): (r: Bytes)
    ensures |r| == MIN_FRAME_SIZE + |f.path| + |f.data|
  {
    Header(|Body(f, replacement)|) + Body(f, replacement)
  }

  function Encode(c: Suite, f: Frame, encrypt: bool, key: Bytes, iv: Option<Bytes>, replacement: U32): Result<Bytes> {
    if !encrypt then Ok(EncodePlain(f, replacement))
    else
      match AesEncrypt(c, Body(f, replacement), key, iv)
      case Err(e) => Err(e)
      case Ok(sealed) => Ok(Header(|sealed|) + sealed)
  }

  /** encodeFrame as the source writes it: two buffers grown field by field. */
  method EncodeFrame(c: Suite, f: Frame, encrypt: bool, key: Bytes, iv: Option<Bytes>, replacement: U32)
    returns (r: Result<Bytes>)
    ensures r == Encode(c, f, encrypt, key, iv, replacement)
  {
    var encoded := MAGIC;
    encoded := encoded + [VERSION];

    var body := U32ToStr(f.rid);
    body := body + U32ToStr(if replacement == 0 then f.fid else replacement);
    var ssid := U64ToStr(f.ssid);
    body := body + ssid;
    body := body + [f.flags];
    body := body + [f.status];
    body := body + U16ToStr(|f.path| % TWO16);
    body := body + f.path;
    body := body + f.data;
    assert body == Body(f, replacement);

    if encrypt {
      var sealed := AesEncrypt(c, body, key, iv);
      if sealed.Err? {
        return Err(sealed.failure);
      }
      body := sealed.value;
    }
    encoded := encoded + U32ToStr(|body| % TWO32);
    encoded := encoded + body;
    assert encoded == Header(|body|) + body;
    r := Ok(encoded);
  }

  // -------- decoding --------

  predicate ValidateProtocol(b: Bytes) {
    |b| >= 4 && b[..4] == MAGIC
  }

  function FrameBodySize(b: Bytes): U32
    requires |b| >= HEADER_SIZE
  {
    PtrToU32(b[5..])
  }

  function DecodeBody(body: Bytes): Result<Frame> {
    if |body| < BODY_HEADER_SIZE then Err(Malformed)
    else
      var pathLen := PtrToU16(body[18..]);
      if BODY_HEADER_SIZE + pathLen > |body| then Err(Malformed)
      else
        Ok(Frame(PtrToU32(body[4..]), PtrToU32(body), PtrToU64(body[8..]), body[17], body[16],
                 body[BODY_HEADER_SIZE..BODY_HEADER_SIZE + pathLen], body[BODY_HEADER_SIZE + pathLen..]))
  }

  function Decode(c: Suite, data: Bytes, encrypted: bool, key: Bytes): Result<Frame> {
    if |data| < HEADER_SIZE then Err(Malformed)
    else if !ValidateProtocol(data) then Err(Malformed)
    else if data[4] != VERSION then Err(Malformed)
    else if FrameBodySize(data) != |data| - HEADER_SIZE then Err(Malformed)
    else if !encrypted then DecodeBody(data[HEADER_SIZE..])
    else
      match AesDecrypt(c, data[HEADER_SIZE..], key)
      case Err(e) => Err(e)
      case Ok(body) => DecodeBody(body)
  }

  // -------- the codec laws --------

  /** Sealing fails exactly without a 32-byte key or without an IV. */
  lemma EncodeFailsIff(c: Suite, f: Frame, key: Bytes, iv: Option<Bytes>, replacement: U32)
    ensures Encode(c, f, true, key, iv, replacement).Err? <==> |key| != 32 || iv.None?
  {
  }

  /** A sealed frame fails to decode with a runtime_error exactly when its header is
      in order and its body does not decrypt; every other failure is malformed. */
  lemma DecodeFailsIff(c: Suite, data: Bytes, key: Bytes)
    ensures Decode(c, data, true, key) == Err(Runtime)
            <==> (&& |data| >= 9 && data[..5] == [0x66, 0x6d, 0x78, 0x70, 1]
                  && PtrToU32(data[5..]) == |data| - 9
                  && AesDecrypt(c, data[9..], key).Err?)
  {
    hide AesDecrypt, DecodeBody, PtrToU32;
    if |data| >= 9 {
      assert data[..5] == data[..4] + [data[4]];
      BodyFailure(data[9..]);
      if AesDecrypt(c, data[9..], key).Ok? {
        BodyFailure(AesDecrypt(c, data[9..], key).value);
      } else {
        AesFailure(c, data[9..], key);
      }
    }
  }

  lemma BodyFailure(body: Bytes)
    ensures DecodeBody(body) != Err(Runtime)
  {
  }

  lemma AesFailure(c: Suite, packet: Bytes, key: Bytes)
    requires AesDecrypt(c, packet, key).Err?
    ensures AesDecrypt(c, packet, key) == Err(Runtime)
  {
  }

  /** Every encoding starts with "fmxp" and version 1, and has 29 bytes besides
      path and data. */
  lemma EncodingStarts(c: Suite, f: Frame, replacement: U32)
    ensures EncodePlain(f, replacement)[..5] == [0x66, 0x6d, 0x78, 0x70, 1]
    ensures |EncodePlain(f, replacement)| == 29 + |f.path| + |f.data|
  {
  }

  /** What decoding gives back for an encoded frame: path and data joined and
      split again at the 16-bit path size. */
  function Carried(f: Frame, replacement: U32): (g: Frame)
    ensures g.path + g.data == f.path + f.data
    ensures |f.path| < TWO16 ==> g == f.(fid := WireFid(f, replacement))
  {
    var split := |f.path| % TWO16;
    var all := f.path + f.data;
    assert all == all[..split] + all[split..];
    assert |f.path| < TWO16 ==> all[..split] == f.path && all[split..] == f.data;
    f.(fid := WireFid(f, replacement), path := all[..split], data := all[split..])
  }

  lemma BodyFields(f: Frame, replacement: U32)
    ensures var b := Body(f, replacement);
            && b[0..4] == BigEndian(4, f.rid)
            && b[4..8] == BigEndian(4, WireFid(f, replacement))
            && b[8..16] == BigEndian(8, f.ssid)
            && b[16] == f.flags && b[17] == f.status
            && b[18..20] == BigEndian(2, |f.path| % TWO16)
            && b[20..] == f.path + f.data
  {
    hide BigEndian;
    var h := BodyHeader(f, replacement);
    assert Body(f, replacement) == h + (f.path + f.data);
    assert h[0..4] == BigEndian(4, f.rid);
    assert h[4..8] == BigEndian(4, WireFid(f, replacement));
    assert h[8..16] == BigEndian(8, f.ssid);
    assert h[18..20] == BigEndian(2, |f.path| % TWO16);
  }

  lemma BodyRoundTrip(f: Frame, replacement: U32)
    ensures DecodeBody(Body(f, replacement)) == Ok(Carried(f, replacement))
  {
    hide BigEndian, Value, Body;
    var b := Body(f, replacement);
    BodyFields(f, replacement);
    ReadBack(|f.path| % TWO16, f.rid, f.ssid);
    ReadBack(0, WireFid(f, replacement), 0);
    assert b[..4] == b[0..4];
    assert b[4..][..4] == b[4..8];
    assert b[8..][..8] == b[8..16];
    assert b[18..][..2] == b[18..20];
    assert BigEndian(4, f.rid)[..4] == BigEndian(4, f.rid);
    assert BigEndian(4, WireFid(f, replacement))[..4] == BigEndian(4, WireFid(f, replacement));
    assert BigEndian(8, f.ssid)[..8] == BigEndian(8, f.ssid);
    var n := |f.path| % TWO16;
    assert BigEndian(2, n)[..2] == BigEndian(2, n);
    assert PtrToU16(b[18..]) == n;
    assert b[20..20 + n] == b[20..][..n];
    assert b[20 + n..] == b[20..][n..];
  }

  /** A header written for a body of n < 2^32 bytes passes every header check. */
  lemma HeaderReads(body: Bytes)
    requires |body| < TWO32
    ensures var e := Header(|body|) + body;
            && ValidateProtocol(e) && e[4] == VERSION
            && FrameBodySize(e) == |body| && e[HEADER_SIZE..] == body
  {
    hide BigEndian, Value;
    var e := Header(|body|) + body;
    assert e[..4] == MAGIC;
    assert e[5..][..4] == BigEndian(4, |body|);
    ReadBack(0, |body|, 0);
    assert BigEndian(4, |body|)[..4] == BigEndian(4, |body|);
  }

  /** Decoding undoes plain encoding, for every frame whose body fits 32 bits. */
  lemma PlainRoundTrip(c: Suite, f: Frame, key: Bytes, replacement: U32)
    requires |Body(f, replacement)| < TWO32
    ensures Decode(c, EncodePlain(f, replacement), false, key) == Ok(Carried(f, replacement))
  {
    HeaderReads(Body(f, replacement));
    BodyRoundTrip(f, replacement);
  }

  /** Decoding undoes encrypted encoding, which adds exactly 28 bytes to the body. */
  lemma SealedRoundTrip(c: Suite, f: Frame, key: Bytes, iv: Bytes, replacement: U32)
    requires Lawful(c) && |key| == KEY_SIZE && |iv| == IV_SIZE
    requires |Body(f, replacement)| + 28 < TWO32
    ensures var e := Encode(c, f, true, key, Some(iv), replacement);
            && e.Ok? && |e.value| == 57 + |f.path| + |f.data|
            && ValidateProtocol(e.value) && FrameBodySize(e.value) == |e.value| - HEADER_SIZE
            && Decode(c, e.value, true, key) == Ok(Carried(f, replacement))
  {
    AesRoundTrip(c, Body(f, replacement), key, iv);
    HeaderReads(AesEncrypt(c, Body(f, replacement), key, Some(iv)).value);
    BodyRoundTrip(f, replacement);
  }

  /** The fixed 20 bytes are determined by the fields read from them. */
  lemma FieldsCanonical(h: Bytes)
    requires |h| == BODY_HEADER_SIZE
    ensures BigEndian(4, PtrToU32(h)) + BigEndian(4, PtrToU32(h[4..])) + BigEndian(8, PtrToU64(h[8..]))
            + [h[16]] + [h[17]] + BigEndian(2, PtrToU16(h[18..])) == h
  {
    hide BigEndian, Value;
    WriteBack(h[..4]);
    WriteBack(h[4..8]);
    WriteBack(h[8..16]);
    WriteBack(h[18..20]);
    assert h[..4][..4] == h[..4];
    assert h[4..][..4] == h[4..8] == h[4..8][..4];
    assert h[8..][..8] == h[8..16] == h[8..16][..8];
    assert h[18..][..2] == h[18..20] == h[18..20][..2];
    assert h == h[..4] + h[4..8] + h[8..16] + [h[16]] + [h[17]] + h[18..20];
  }

  lemma HeaderCanonical(h: Bytes, f: Frame)
    requires |h| == BODY_HEADER_SIZE
    requires f.rid == PtrToU32(h) && f.fid == PtrToU32(h[4..]) && f.ssid == PtrToU64(h[8..])
    requires f.flags == h[16] && f.status == h[17] && |f.path| == PtrToU16(h[18..])
    ensures BodyHeader(f, 0) == h
  {
    hide BigEndian, Value;
    FieldsCanonical(h);
  }

  lemma SameFields(h: Bytes, b: Bytes)
    requires |h| == BODY_HEADER_SIZE && h <= b
    ensures PtrToU32(h) == PtrToU32(b) && PtrToU32(h[4..]) == PtrToU32(b[4..])
    ensures PtrToU64(h[8..]) == PtrToU64(b[8..]) && PtrToU16(h[18..]) == PtrToU16(b[18..])
  {
    assert h[..4] == b[..4];
    assert h[4..][..4] == b[4..][..4];
    assert h[8..][..8] == b[8..][..8];
    assert h[18..][..2] == b[18..][..2];
  }

  lemma BodyCanonical(b: Bytes)
    requires DecodeBody(b).Ok?
    ensures Body(DecodeBody(b).value, 0) == b
    ensures |DecodeBody(b).value.path| < TWO16
  {
    var f := DecodeBody(b).value;
    var h := b[..BODY_HEADER_SIZE];
    SameFields(h, b);
    HeaderCanonical(h, f);
    assert b == h + f.path + f.data;
  }

  lemma OuterCanonical(data: Bytes)
    requires |data| >= HEADER_SIZE && ValidateProtocol(data) && data[4] == VERSION
    requires FrameBodySize(data) == |data| - HEADER_SIZE
    ensures Header(|data| - HEADER_SIZE) + data[HEADER_SIZE..] == data
  {
    hide BigEndian, Value;
    WriteBack(data[5..9]);
    assert data[5..][..4] == data[5..9] == data[5..9][..4];
    assert data[..4] == MAGIC;
    assert data == data[..4] + [data[4]] + data[5..9] + data[HEADER_SIZE..];
  }

  /** Canonical form: a byte string plain decoding accepts is the encoding of
      what it decodes to, byte for byte. */
  lemma PlainCanonical(c: Suite, data: Bytes, key: Bytes)
    requires Decode(c, data, false, key).Ok?
    ensures EncodePlain(Decode(c, data, false, key).value, 0) == data
  {
    hide DecodeBody, Body, Header;
    BodyCanonical(data[HEADER_SIZE..]);
    OuterCanonical(data);
  }

  /** Two accepted strings at the front of the same bytes are the same string. */
  lemma SameFront(c: Suite, a: Bytes, b: Bytes, whole: Bytes, encA: bool, encB: bool, keyA: Bytes, keyB: Bytes)
    requires Decode(c, a, encA, keyA).Ok? && Decode(c, b, encB, keyB).Ok?
    requires a <= whole && b <= whole
    ensures a == b
  {
    assert a[5..][..4] == whole[5..9] == b[5..][..4];
    assert a == whole[..|a|] && b == whole[..|b|];
  }

  /** No accepted byte string is a proper prefix of another one, encrypted or not. */
  lemma SelfDelimiting(c: Suite, a: Bytes, b: Bytes, encA: bool, encB: bool, keyA: Bytes, keyB: Bytes)
    requires Decode(c, a, encA, keyA).Ok? && Decode(c, b, encB, keyB).Ok?
    requires a <= b
    ensures a == b
  {
    SameFront(c, a, b, b, encA, encB, keyA, keyB);
  }

  function Concat(parts: seq<Bytes>): Bytes {
    if parts == [] then [] else parts[0] + Concat(parts[1..])
  }

  ghost predicate AllAccepted(c: Suite, parts: seq<Bytes>, encrypted: bool, key: Bytes) {
    forall i :: 0 <= i < |parts| ==> Decode(c, parts[i], encrypted, key).Ok?
  }

  lemma AcceptedNonEmpty(c: Suite, parts: seq<Bytes>, encrypted: bool, key: Bytes)
    requires AllAccepted(c, parts, encrypted, key)
    ensures Concat(parts) == [] ==> parts == []
  {
    if parts != [] {
      assert |parts[0]| >= HEADER_SIZE;
    }
  }

  /** A concatenation of accepted strings splits into them in only one way. */
  lemma {:induction false} UniqueSplit(c: Suite, a: seq<Bytes>, b: seq<Bytes>, encrypted: bool, key: Bytes)
    requires AllAccepted(c, a, encrypted, key) && AllAccepted(c, b, encrypted, key)
    requires Concat(a) == Concat(b)
    ensures a == b
  {
    hide Decode;
    if a == [] || b == [] {
      // every part is non-empty, so both lists are empty
      AcceptedNonEmpty(c, a, encrypted, key);
      AcceptedNonEmpty(c, b, encrypted, key);
    } else {
      var whole := Concat(a);
      SameFront(c, a[0], b[0], whole, encrypted, encrypted, key, key);
      assert Concat(a[1..]) == whole[|a[0]|..] == Concat(b[1..]);
      UniqueSplit(c, a[1..], b[1..], encrypted, key);
      assert a == [a[0]] + a[1..] && b == [b[0]] + b[1..];
    }
  }

  lemma Joined<T>(a: seq<T>, b: seq<T>, c: seq<T>)
    ensures a + (b + c) == a + b + c
  {
  }

  lemma {:induction false} ConcatAppend(parts: seq<Bytes>, more: seq<Bytes>)
    ensures Concat(parts + more) == Concat(parts) + Concat(more)
  {
    if parts == [] {
      assert parts + more == more;
    } else {
      ConcatAppend(parts[1..], more);
      assert (parts + more)[0] == parts[0] && (parts + more)[1..] == parts[1..] + more;
      Joined(parts[0], Concat(parts[1..]), Concat(more));
    }
  }
}
