/** The cryptographic operations, known only by their laws.

    A `Suite` is any pair of AES-256-GCM primitives together with one RSA key
    pair. Nothing is assumed of a suite except `Lawful`, and only the theorems
    about honest peers ask for that. The key and packet checks around the
    primitives, and the IV / tag / ciphertext layout, are the source's own
    (core/enc/aes.cpp). */
module Crypto {
  import opened Encoders

  datatype Option<+T> = None | Some(value: T)

  /** Which exception class a failing operation throws: `Malformed` is
      FMXPException, `Runtime` is std::runtime_error. */
  datatype Failure = Malformed | Runtime

  datatype Result<+T> = Ok(value: T) | Err(failure: Failure)

  const KEY_SIZE: nat := 32
  const IV_SIZE: nat := 12
  const TAG_SIZE: nat := 16

  datatype Suite = Suite(
    cipher: (Bytes, Bytes, Bytes) -> Bytes,               // key, iv, plaintext
    tag: (Bytes, Bytes, Bytes) -> Bytes,                  // key, iv, plaintext
    open: (Bytes, Bytes, Bytes, Bytes) -> Option<Bytes>,  // key, iv, tag, ciphertext
    rsaSeal: (Bytes, Bytes) -> Bytes,                     // padding randomness, plaintext
    rsaOpen: Bytes -> Option<Bytes>)

  ghost predicate Lawful(c: Suite) {
    && (forall k: Bytes, iv: Bytes, p: Bytes ::
          |k| == KEY_SIZE && |iv| == IV_SIZE ==> Seals(c, k, iv, p))
    && (forall r: Bytes, p: Bytes :: c.rsaOpen(c.rsaSeal(r, p)) == Some(p))
  }

  ghost predicate Seals(c: Suite, k: Bytes, iv: Bytes, p: Bytes) {
    && |c.cipher(k, iv, p)| == |p|
    && |c.tag(k, iv, p)| == TAG_SIZE
    && c.open(k, iv, c.tag(k, iv, p), c.cipher(k, iv, p)) == Some(p)
  }

  /** `iv` is what RAND_bytes produced, None when it failed. */
  function AesEncrypt(c: Suite, plain: Bytes, key: Bytes, iv: Option<Bytes>): (r: Result<Bytes>)
    ensures r.Ok? <==> |key| == KEY_SIZE && iv.Some?
    ensures r.Err? ==> r.failure == Runtime
  {
    if |key| != KEY_SIZE then Err(Runtime)
    else if iv.None? then Err(Runtime)
    else Ok(iv.value + c.tag(key, iv.value, plain) + c.cipher(key, iv.value, plain))
  }

  function AesDecrypt(c: Suite, packet: Bytes, key: Bytes): (r: Result<Bytes>)
    ensures r.Err? ==> r.failure == Runtime
    ensures r.Ok? ==> |key| == KEY_SIZE && |packet| >= 28
  {
    if |key| != KEY_SIZE then Err(Runtime)
    else if |packet| < IV_SIZE + TAG_SIZE then Err(Runtime)
    else
      match c.open(key, packet[..IV_SIZE], packet[IV_SIZE..IV_SIZE + TAG_SIZE], packet[IV_SIZE + TAG_SIZE..])
      case None => Err(Runtime)
      case Some(p) => Ok(p)
  }

  lemma AesRoundTrip(c: Suite, plain: Bytes, key: Bytes, iv: Bytes)
    requires Lawful(c) && |key| == KEY_SIZE && |iv| == IV_SIZE
    ensures AesEncrypt(c, plain, key, Some(iv)).Ok?
    ensures |AesEncrypt(c, plain, key, Some(iv)).value| == |plain| + 28
    ensures AesDecrypt(c, AesEncrypt(c, plain, key, Some(iv)).value, key) == Ok(plain)
  {
    assert Seals(c, key, iv, plain);
    var t, x := c.tag(key, iv, plain), c.cipher(key, iv, plain);
    var packet := iv + t + x;
    assert packet[..IV_SIZE] == iv;
    assert packet[IV_SIZE..IV_SIZE + TAG_SIZE] == t;
    assert packet[IV_SIZE + TAG_SIZE..] == x;
  }

  /** A packet is the IV, then the 16-byte tag, then the ciphertext; a packet is
      opened with the same split. */
  lemma AesLayout(c: Suite, plain: Bytes, key: Bytes, iv: Bytes, packet: Bytes)
    requires Lawful(c) && |key| == 32 && |iv| == 12
    ensures var e := AesEncrypt(c, plain, key, Some(iv));
            && e.Ok? && |e.value| >= 28 && e.value[..12] == iv && e.value[12..28] == c.tag(key, iv, plain)
            && e.value[28..] == c.cipher(key, iv, plain)
    ensures |packet| >= 28 ==>
              AesDecrypt(c, packet, key)
              == match c.open(key, packet[..12], packet[12..28], packet[28..])
                 case None => Err(Runtime)
                 case Some(p) => Ok(p)
  {
    assert Seals(c, key, iv, plain);
  }

  /** The laws can be met, so theorems that assume them are not vacuous. */
  lemma LawfulSuiteExists() returns (c: Suite)
    ensures Lawful(c)
  {
    var zeros: Bytes := [0, 0, 0, 0, 0, 0, 0, 0, 0, 0, 0, 0, 0, 0, 0, 0];
    var cipher := (k: Bytes, iv: Bytes, p: Bytes) => p;
    var tag := (k: Bytes, iv: Bytes, p: Bytes) => zeros;
    var open := (k: Bytes, iv: Bytes, t: Bytes, x: Bytes) => Some(x);
    var rsaSeal := (r: Bytes, p: Bytes) => p;
    var rsaOpen := (p: Bytes) => Some(p);
    c := Suite(cipher, tag, open, rsaSeal, rsaOpen);
    assert forall k: Bytes, iv: Bytes, p: Bytes :: Seals(c, k, iv, p);
  }
}
