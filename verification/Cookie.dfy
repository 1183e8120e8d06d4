/**
  NTS cookies: the session keys of a client, encrypted under one of the rotating server keys
  and handed to the client, who returns them with each request.
 */
module Cookies {
  import opened Common
  import opened KeyText
  import opened KeyDumps

  const COOKIE_HEADER_LEN: nat := 4
  const NKE_MAX_KEY_LENGTH: nat := 32
  const NKE_MAX_COOKIE_LENGTH: nat := 256
  const AEAD_AES_SIV_CMAC_256: U16 := 15
  const AEAD_AES_128_GCM_SIV: U16 := 30

  /** A keyed cipher: tag length, and encryption and decryption of a text under a nonce. */
  datatype Siv = Siv(tagLength: nat, encrypt: (Bytes, Bytes) -> Option<Bytes>, decrypt: (Bytes, Bytes) -> Option<Bytes>)

  /** What the cipher encrypts it decrypts, and the tag is all it adds. */
  ghost predicate Invertible(siv: Siv) {
    forall nonce, text :: siv.encrypt(nonce, text).Some? ==> Inverts(siv, nonce, text)
  }

  predicate Inverts(siv: Siv, nonce: Bytes, text: Bytes)
    requires siv.encrypt(nonce, text).Some?
  {
    var cipher := siv.encrypt(nonce, text).value;
    |cipher| == |text| + siv.tagLength && siv.decrypt(nonce, cipher) == Some(text)
  }

  datatype CookieKey = CookieKey(id: U32, siv: Siv, nonceLength: nat)

  datatype Context = Context(algorithm: U16, c2s: Bytes, s2c: Bytes)

  /** `generate_cookie`. */
  function Generate(key: CookieKey, nonce: Bytes, c2s: Bytes, s2c: Bytes): (r: Option<Bytes>)
    ensures r.Some? ==> |c2s| == |s2c| <= NKE_MAX_KEY_LENGTH && key.nonceLength <= |nonce|
  {
    if |c2s| > NKE_MAX_KEY_LENGTH || |s2c| != |c2s| then None
    else if COOKIE_HEADER_LEN + key.nonceLength + |c2s + s2c| + key.siv.tagLength > NKE_MAX_COOKIE_LENGTH
            || |nonce| < key.nonceLength then None
    else
      var n := nonce[..key.nonceLength];
      match key.siv.encrypt(n, c2s + s2c)
      case None => None
      case Some(cipher) => Some(Be32(key.id) + n + cipher)
  }

  /**
    A cookie is issued exactly for equally long keys of at most 32 bytes, with a long enough nonce
    and if it fits 256 bytes and the cipher takes the text; its parts then tell the server key,
    the nonce and, decrypted, the two session keys.
   */
  lemma CookieLayout(key: CookieKey, nonce: Bytes, c2s: Bytes, s2c: Bytes)
    requires Invertible(key.siv)
    ensures var r, l := Generate(key, nonce, c2s, s2c), key.nonceLength;
            var total := COOKIE_HEADER_LEN + l + 2 * |c2s| + key.siv.tagLength;
            && (r.Some? <==>
                  && |c2s| == |s2c| <= NKE_MAX_KEY_LENGTH && l <= |nonce| && total <= NKE_MAX_COOKIE_LENGTH
                  && key.siv.encrypt(nonce[..l], c2s + s2c).Some?)
            && (r.Some? ==>
                  && |r.value| == total && FromBe32(r.value[..4]) == key.id && r.value[4..4 + l] == nonce[..l]
                  && key.siv.decrypt(nonce[..l], r.value[4 + l..]) == Some(c2s + s2c))
  {
    var l := key.nonceLength;
    if Generate(key, nonce, c2s, s2c).Some? {
      var cookie := Generate(key, nonce, c2s, s2c).value;
      assert Inverts(key.siv, nonce[..l], c2s + s2c);
      assert cookie[..4] == Be32(key.id) && cookie[4..4 + l] == nonce[..l];
      assert cookie[4 + l..] == key.siv.encrypt(nonce[..l], c2s + s2c).value;
      Be32RoundTrip(key.id);
    }
  }

  /** The algorithm a key length implies. */
  function Algorithm(keyLength: nat): Option<U16> {
    if keyLength == 16 then Some(AEAD_AES_128_GCM_SIV)
    else if keyLength == 32 then Some(AEAD_AES_SIV_CMAC_256)
    else None
  }

  /** `decode_cookie`. */
  function Decode(cookie: Bytes, keys: seq<CookieKey>): Option<Context>
    requires |keys| == MAX_SERVER_KEYS
  {
    if |cookie| <= COOKIE_HEADER_LEN then None
    else
      var id := FromBe32(cookie[..4]);
      var key := keys[Slot(id)];
      if key.id != id || |cookie| <= COOKIE_HEADER_LEN + key.nonceLength + key.siv.tagLength then None
      else DecodeWith(key, cookie[4..])
  }

  /**
    The nonce and the encrypted keys, under the right server key.  The decrypted text fills a
    buffer of the expected length, so no other length occurs.
   */
  function DecodeWith(key: CookieKey, body: Bytes): Option<Context>
    requires key.nonceLength + key.siv.tagLength <= |body|
  {
    var nonce, cipher := body[..key.nonceLength], body[key.nonceLength..];
    var length := |cipher| - key.siv.tagLength;
    if length > 2 * NKE_MAX_KEY_LENGTH || length % 2 != 0 then None
    else
      match key.siv.decrypt(nonce, cipher)
      case None => None
      case Some(text) =>
        var half := length / 2;
        if Algorithm(half).None? || |text| != length then None
        else Some(Context(Algorithm(half).value, text[..half], text[half..]))
  }

  /**
    A cookie comes back as the session keys it was made from, exactly for the two key lengths
    that imply an algorithm; a cookie made from keys of any other length is not accepted.
   */
  lemma CookieComesBack(key: CookieKey, nonce: Bytes, c2s: Bytes, s2c: Bytes, keys: seq<CookieKey>)
    requires |keys| == MAX_SERVER_KEYS && keys[Slot(key.id)] == key && Invertible(key.siv)
    requires Generate(key, nonce, c2s, s2c).Some?
    ensures Decode(Generate(key, nonce, c2s, s2c).value, keys)
            == match Algorithm(|c2s|) case Some(a) => Some(Context(a, c2s, s2c)) case None => None
  {
    var n, text := nonce[..key.nonceLength], c2s + s2c;
    assert Inverts(key.siv, n, text);
    var cipher := key.siv.encrypt(n, text).value;
    var cookie := Be32(key.id) + n + cipher;
    assert cookie[..4] == Be32(key.id) && cookie[4..] == n + cipher;
    Be32RoundTrip(key.id);
    if |c2s| > 0 { BodyComesBack(key, n, cipher, c2s, s2c); }
  }

  lemma BodyComesBack(key: CookieKey, n: Bytes, cipher: Bytes, c2s: Bytes, s2c: Bytes)
    requires |n| == key.nonceLength && |c2s| == |s2c| <= NKE_MAX_KEY_LENGTH
    requires |cipher| == 2 * |c2s| + key.siv.tagLength && key.siv.decrypt(n, cipher) == Some(c2s + s2c)
    ensures DecodeWith(key, n + cipher) == match Algorithm(|c2s|) case Some(a) => Some(Context(a, c2s, s2c)) case None => None
  {}

  /** The cipher accepts only what it encrypts itself, tag included. */
  ghost predicate Authentic(siv: Siv) {
    forall nonce, cipher :: siv.decrypt(nonce, cipher).Some? ==> Issued(siv, nonce, cipher)
  }

  predicate Issued(siv: Siv, nonce: Bytes, cipher: Bytes)
    requires siv.decrypt(nonce, cipher).Some?
  {
    siv.encrypt(nonce, siv.decrypt(nonce, cipher).value) == Some(cipher)
  }

  /** With such a cipher, whatever decodes is the cookie that would be issued for what it decodes to, if that fits. */
  lemma DecodedWasIssued(cookie: Bytes, keys: seq<CookieKey>)
    requires |keys| == MAX_SERVER_KEYS && Decode(cookie, keys).Some? && Authentic(keys[Slot(FromBe32(cookie[..4]))].siv)
    ensures var key, context := keys[Slot(FromBe32(cookie[..4]))], Decode(cookie, keys).value;
            Generate(key, cookie[4..4 + key.nonceLength], context.c2s, context.s2c)
            == if |cookie| <= NKE_MAX_COOKIE_LENGTH then Some(cookie) else None
  {
    var key, context, body := keys[Slot(FromBe32(cookie[..4]))], Decode(cookie, keys).value, cookie[4..];
    var nonce, cipher := body[..key.nonceLength], body[key.nonceLength..];
    assert Issued(key.siv, nonce, cipher);
    assert context.c2s + context.s2c == key.siv.decrypt(nonce, cipher).value;
    assert nonce == cookie[4..4 + key.nonceLength] && nonce[..key.nonceLength] == nonce;
    FromBe32RoundTrip(cookie[..4]);
    assert cookie[..4] + nonce + cipher == cookie;
  }

  // ---- Across a restart.

  /** The cipher of a server key, and the nonce length of an algorithm. */
  datatype Ciphers = Ciphers(siv: (I32, Bytes) -> Siv, nonceLength: I32 -> nat)

  function CookieKeyOf(k: DumpKey, make: Ciphers): CookieKey {
    CookieKey(k.id, make.siv(k.algorithm, k.key), make.nonceLength(k.algorithm))
  }

  /** The server's cookie keys, slot by slot. */
  function Server(ring: seq<DumpKey>, make: Ciphers): (keys: seq<CookieKey>)
    requires |ring| == MAX_SERVER_KEYS
    ensures |keys| == MAX_SERVER_KEYS
  {
    seq(MAX_SERVER_KEYS, j requires 0 <= j < MAX_SERVER_KEYS => CookieKeyOf(ring[j], make))
  }

  /**
    A cookie issued under any key of a well-formed ring still decodes to the same session keys
    and algorithm after the server has dumped its ring, restarted and loaded the dump.
   */
  lemma CookieSurvivesRestart<Age>(ring: seq<DumpKey>, current: nat, age: string, len: KeyLength, readAge: string -> Option<Age>,
                                   make: Ciphers, issuer: nat, nonce: Bytes, c2s: Bytes, s2c: Bytes)
    requires Dumpable(ring, current, len) && Word(age) && readAge(age).Some?
    requires issuer < MAX_SERVER_KEYS && Invertible(make.siv(ring[issuer].algorithm, ring[issuer].key))
    requires |c2s| == 16 || |c2s| == 32
    requires Generate(Server(ring, make)[issuer], nonce, c2s, s2c).Some?
    ensures Dump(current, ring, age, len).Some?
    ensures var loaded := Parsed(Dump(current, ring, age, len).value, len, readAge);
            && loaded.Some? && |loaded.value.keys| == MAX_SERVER_KEYS
            && Decode(Generate(Server(ring, make)[issuer], nonce, c2s, s2c).value, Server(loaded.value.keys, make))
               == Some(Context(if |c2s| == 16 then AEAD_AES_128_GCM_SIV else AEAD_AES_SIV_CMAC_256, c2s, s2c))
  {
    DumpComesBack(ring, current, age, len, readAge);
    assert RingSlotOk(ring[issuer], issuer, len);
    CookieComesBack(Server(ring, make)[issuer], nonce, c2s, s2c, Server(ring, make));
  }
}
