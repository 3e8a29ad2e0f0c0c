/**
 The key protector of a Java keystore (src/lib/core/KeyParsers.cpp:315-332, 405-506): a key is XORed with a stream of
 chained SHA-1 digests, and wrapped in an EncryptedPrivateKeyInfo. Recovering undoes protecting.
 */
module JksProtector {
  import opened ByteStrings
  import opened Der
  import opened Sha1
  import opened Utf

  const SALT: nat := 20
  const DIGEST: nat := 20
  const PROTECTOR_OID: Bytes := [0x2B, 0x06, 0x01, 0x04, 0x01, 0x2A, 0x02, 0x11, 0x01, 0x01]

  // ---- Passwords --------------------------------------------------------------------------------

  function UnitOctets(s: seq<Unit>): (r: Bytes) {
    if s == [] then [] else [s[0] / 256, s[0] % 256] + UnitOctets(s[1..])
  }

  /** A password as big-endian UTF-16. */
  function PasswordBytes(password: Bytes): (r: Option<Bytes>) {
    if password == [] then Some([]) else
      match Decode(password) case None => None case Some(s) => Some(UnitOctets(s))
  }

  method ToJksPasswordBytes(password: Bytes) returns (ok: bool, out: Bytes)
    ensures ok <==> PasswordBytes(password).Some?
    ensures ok ==> PasswordBytes(password) == Some(out)
  {
    hide Decode;
    ok, out := true, [];
    if password == [] { return; }
    var units;
    ok, units := DecodeUtf8ToUtf16(password);
    if !ok { return; }
    assert PasswordBytes(password) == Some(UnitOctets(units));
    var i := 0;
    assert units[0..] == units;
    while i < |units|
      invariant 0 <= i <= |units| && out + UnitOctets(units[i..]) == UnitOctets(units)
    {
      assert units[i..][1..] == units[i + 1..];
      out := out + [units[i] / 256, units[i] % 256];
      i := i + 1;
    }
    assert units[|units|..] == [];
    assert out + [] == out;
  }

  // ---- The key stream ---------------------------------------------------------------------------

  function Least(a: nat, b: nat): (r: nat) { if a < b then a else b }

  /** n octets of the digests chained from `previous`. */
  function KeyStream(password: Bytes, previous: Bytes, n: nat): (r: Bytes)
    ensures |r| == n
    decreases n
  {
    if n == 0 then [] else
      var digest := Digest(password + previous);
      digest[..Least(DIGEST, n)] + KeyStream(password, digest, n - Least(DIGEST, n))
  }

  method MakeKeyStream(password: Bytes, salt: Bytes, n: nat) returns (stream: Bytes)
    ensures stream == KeyStream(password, salt, n)
  {
    hide Digest;
    stream := [];
    var previous := salt;
    while |stream| < n
      invariant |stream| <= n && stream + KeyStream(password, previous, n - |stream|) == KeyStream(password, salt, n)
    {
      var digest := Sha1Digest(password + previous);
      var chunk := Least(|digest|, n - |stream|);
      ghost var left := n - |stream|;
      assert KeyStream(password, previous, left) == digest[..chunk] + KeyStream(password, digest, left - chunk);
      stream := stream + digest[..chunk];
      previous := digest;
    }
  }

  function Pow2(k: nat): (r: nat) { if k == 0 then 1 else 2 * Pow2(k - 1) }

  /** The exclusive or of the low k bits. */
  function XorBits(a: nat, b: nat, k: nat): (r: nat)
    ensures r < Pow2(k)
  {
    if k == 0 then 0 else (a + b) % 2 + 2 * XorBits(a / 2, b / 2, k - 1)
  }

  lemma {:induction false} XorBitsTwice(a: nat, b: nat, k: nat)
    requires a < Pow2(k)
    ensures XorBits(XorBits(a, b, k), b, k) == a
  {
    if k > 0 {
      XorBitsTwice(a / 2, b / 2, k - 1);
      LastBit(a, b, XorBits(a / 2, b / 2, k - 1));
    }
  }

  lemma LastBit(a: nat, b: nat, y: nat)
    ensures var x := (a + b) % 2 + 2 * y; x / 2 == y && (x + b) % 2 == a % 2
  {
  }

  lemma EightBits()
    ensures Pow2(8) == 256
  {
    assert Pow2(4) == 16;
    assert Pow2(8) == 16 * Pow2(4) by { assert Pow2(6) == 4 * Pow2(4); }
  }

  function Xor(a: Byte, b: Byte): (r: Byte) {
    EightBits();
    XorBits(a, b, 8)
  }

  lemma XorTwice(a: Byte, b: Byte)
    ensures Xor(Xor(a, b), b) == a
  {
    EightBits();
    hide XorBits, Pow2;
    XorBitsTwice(a, b, 8);
  }

  function XorAll(s: Bytes, stream: Bytes): (r: Bytes)
    requires |s| == |stream|
    ensures |r| == |s|
  {
    seq(|s|, i requires 0 <= i < |s| => Xor(s[i], stream[i]))
  }

  method XorWith(s: Bytes, stream: Bytes) returns (out: Bytes)
    requires |s| == |stream|
    ensures out == XorAll(s, stream)
  {
    hide Xor;
    out := [];
    for i := 0 to |s|
      invariant out == XorAll(s, stream)[..i]
    {
      out := out + [Xor(s[i], stream[i])];
    }
  }

  lemma XorAllTwice(s: Bytes, stream: Bytes)
    requires |s| == |stream|
    ensures XorAll(XorAll(s, stream), stream) == s
  {
    hide Xor;
    forall i | 0 <= i < |s| ensures XorAll(XorAll(s, stream), stream)[i] == s[i] { XorTwice(s[i], stream[i]); }
  }

  // ---- EncryptedPrivateKeyInfo ------------------------------------------------------------------

  /** The encryptedData field, when the algorithm is the keystore's protector. */
  function Payload(w: WordSize, data: Bytes): (r: Option<Bytes>) {
    var outer := Tlv(w, data, 0, |data|);
    if outer.None? || outer.value.tag != 0x30 || outer.value.next != |data| then None else
    var algorithm := Tlv(w, data, outer.value.start, outer.value.next);
    if algorithm.None? || algorithm.value.tag != 0x30 then None else
    var oid := Tlv(w, data, algorithm.value.start, algorithm.value.next);
    if oid.None? || oid.value.tag != 0x06 || ValueOf(data, oid.value) != PROTECTOR_OID then None else
    var payload := Tlv(w, data, algorithm.value.next, outer.value.next);
    if payload.None? || payload.value.tag != 0x04 || payload.value.next != outer.value.next then None
    else Some(ValueOf(data, payload.value))
  }

  method ExtractJksEncryptedPayload(w: WordSize, data: Bytes) returns (ok: bool, payload: Bytes)
    requires |data| < WordLimit(w)
    ensures ok <==> Payload(w, data).Some?
    ensures ok ==> Payload(w, data) == Some(payload)
  {
    hide Tlv;
    ok, payload := false, [];
    var found, outer := ParseTlvAt(w, data, 0, |data|);
    if !found || outer.tag != 0x30 || outer.next != |data| { return; }
    var algorithm;
    found, algorithm := ParseTlvAt(w, data, outer.start, outer.next);
    if !found || algorithm.tag != 0x30 { return; }
    var oid;
    found, oid := ParseTlvAt(w, data, algorithm.start, algorithm.next);
    if !found || oid.tag != 0x06 { return; }
    if oid.length != |PROTECTOR_OID| || data[oid.start..oid.start + |PROTECTOR_OID|] != PROTECTOR_OID { return; }
    var encrypted;
    found, encrypted := ParseTlvAt(w, data, algorithm.next, outer.next);
    if !found || encrypted.tag != 0x04 || encrypted.next != outer.next { return; }
    ok, payload := true, data[encrypted.start..encrypted.next];
  }

  // ---- Recovering -------------------------------------------------------------------------------

  /** The key inside a payload: salt, encrypted key, digest of the password and the key. */
  function Unwrap(payload: Bytes, password: Bytes): (r: Option<Bytes>) {
    if |payload| < SALT + DIGEST then None else
      var n := |payload| - SALT - DIGEST;
      var key := XorAll(payload[SALT..SALT + n], KeyStream(password, payload[..SALT], n));
      if Digest(password + key) != payload[SALT + n..] then None else Some(key)
  }

  function Recover(w: WordSize, data: Bytes, password: Bytes): (r: Option<Bytes>) {
    if password == [] then None else
      match Payload(w, data)
      case None => None
      case Some(payload) =>
        match PasswordBytes(password) case None => None case Some(p) => Unwrap(payload, p)
  }

  method RecoverJksPrivateKey(w: WordSize, data: Bytes, password: Bytes) returns (ok: bool, key: Bytes)
    requires |data| < WordLimit(w)
    ensures ok <==> Recover(w, data, password).Some?
    ensures ok ==> Recover(w, data, password) == Some(key)
  {
    hide Payload, PasswordBytes, Digest, XorAll, KeyStream;
    ok, key := false, [];
    if password == [] { return; }
    var found, payload := ExtractJksEncryptedPayload(w, data);
    if !found || |payload| < SALT + DIGEST { return; }
    var n := |payload| - SALT - DIGEST;
    var p;
    found, p := ToJksPasswordBytes(password);
    if !found { return; }
    var stream := MakeKeyStream(p, payload[..SALT], n);
    key := XorWith(payload[SALT..SALT + n], stream);
    var computed := Sha1Digest(p + key);
    if computed != payload[SALT + n..] { return false, []; }
    ok := true;
  }

  // ---- Protecting -------------------------------------------------------------------------------

  function Wrap(key: Bytes, password: Bytes, salt: Bytes): (r: Bytes)
    requires |salt| == SALT
    ensures |r| == |key| + SALT + DIGEST
  {
    salt + XorAll(key, KeyStream(password, salt, |key|)) + Digest(password + key)
  }

  lemma UnwrapWrapped(key: Bytes, password: Bytes, salt: Bytes)
    requires |salt| == SALT
    ensures Unwrap(Wrap(key, password, salt), password) == Some(key)
  {
    hide Digest, KeyStream, XorAll;
    var stream := KeyStream(password, salt, |key|);
    var hidden := XorAll(key, stream);
    var payload := Wrap(key, password, salt);
    assert payload[..SALT] == salt;
    assert payload[SALT..SALT + |key|] == hidden;
    assert payload[SALT + |key|..] == Digest(password + key);
    XorAllTwice(key, stream);
  }

  /** Shorter than any buffer could be; it keeps lengths within eight octets. */
  predicate Modest(s: Bytes) { |s| < 0x1000_0000_0000_0000 }

  lemma TlvSize(tag: Byte, value: Bytes)
    requires |value| < 0x8000_0000_0000_0000
    ensures |value| + 2 <= |EncodeTlv(tag, value)| <= |value| + 10
  {
  }

  /** The AlgorithmIdentifier; any identifier and any parameters are allowed. */
  function Algorithm(oid: Bytes, parameters: Bytes): (r: Bytes)
    requires Modest(oid) && Modest(parameters)
  {
    TlvSize(0x06, oid);
    EncodeTlv(0x30, EncodeTlv(0x06, oid) + parameters)
  }

  function KeyInfo(oid: Bytes, parameters: Bytes, payload: Bytes): (r: Bytes)
    requires Modest(oid) && Modest(parameters) && Modest(payload)
    ensures |r| >= |payload| + |parameters|
  {
    TlvSize(0x06, oid);
    TlvSize(0x30, EncodeTlv(0x06, oid) + parameters);
    TlvSize(0x04, payload);
    TlvSize(0x30, Algorithm(oid, parameters) + EncodeTlv(0x04, payload));
    EncodeTlv(0x30, Algorithm(oid, parameters) + EncodeTlv(0x04, payload))
  }

  lemma KeyInfoSizes(oid: Bytes, parameters: Bytes, payload: Bytes)
    requires Modest(oid) && Modest(parameters) && Modest(payload)
    ensures var inner := Algorithm(oid, parameters) + EncodeTlv(0x04, payload);
      && |inner| < 0x8000_0000_0000_0000 && |inner| < |KeyInfo(oid, parameters, payload)|
      && |oid| < |inner| && |parameters| < |inner| && |payload| < |inner|
  {
    hide EncodeTlv;
    TlvSize(0x06, oid);
    TlvSize(0x30, EncodeTlv(0x06, oid) + parameters);
    TlvSize(0x04, payload);
    TlvSize(0x30, Algorithm(oid, parameters) + EncodeTlv(0x04, payload));
  }

  /** The algorithm inside the outer element, and the OID inside the algorithm. */
  lemma AlgorithmRead(w: WordSize, data: Bytes, off: nat, limit: nat, oid: Bytes, parameters: Bytes)
    requires Modest(oid) && Modest(parameters) && At(data, off, Algorithm(oid, parameters))
    requires off + |Algorithm(oid, parameters)| <= limit && |Algorithm(oid, parameters)| < 0x1_0000_0000
    ensures var a := Tlv(w, data, off, limit);
      && a.Some? && a.value.tag == 0x30 && a.value.next == off + |Algorithm(oid, parameters)|
      && var id := Tlv(w, data, a.value.start, a.value.next);
      id.Some? && id.value.tag == 0x06 && ValueOf(data, id.value) == oid
  {
    hide EncodeTlv, Tlv;
    var id := EncodeTlv(0x06, oid);
    TlvSize(0x06, oid);
    TlvSize(0x30, id + parameters);
    TlvOfEncoded(w, data, off, limit, 0x30, id + parameters);
    var a := Tlv(w, data, off, limit).value;
    AtSplit(data, a.start, id, parameters);
    TlvOfEncoded(w, data, a.start, a.next, 0x06, oid);
  }

  /** The payload comes out exactly under the protector's identifier and with nothing after the outer element. */
  lemma PayloadOfKeyInfo(w: WordSize, oid: Bytes, parameters: Bytes, payload: Bytes, tail: Bytes)
    requires Modest(oid) && Modest(parameters) && Modest(payload)
    requires |KeyInfo(oid, parameters, payload)| < 0x1_0000_0000
    ensures Payload(w, KeyInfo(oid, parameters, payload) + tail) ==
      if oid == PROTECTOR_OID && tail == [] then Some(payload) else None
  {
    hide EncodeTlv, Tlv, Algorithm, At, KeyInfo, Payload;
    var info, inner := KeyInfo(oid, parameters, payload), Algorithm(oid, parameters) + EncodeTlv(0x04, payload);
    var data := info + tail;
    KeyInfoIs(oid, parameters, payload);
    KeyInfoSizes(oid, parameters, payload);
    AtMiddle([], info, tail);
    assert [] + info + tail == data;
    TlvOfEncoded(w, data, 0, |data|, 0x30, inner);
    if tail == [] {
      PayloadInside(w, data, |data| - |inner|, oid, parameters, payload);
    } else {
      PayloadNeedsAll(w, data);
    }
  }

  lemma PayloadNeedsAll(w: WordSize, data: Bytes)
    requires Tlv(w, data, 0, |data|).Some? && Tlv(w, data, 0, |data|).value.next != |data|
    ensures Payload(w, data) == None
  {
    hide Tlv;
  }

  lemma PayloadInside(w: WordSize, data: Bytes, start: nat, oid: Bytes, parameters: Bytes, payload: Bytes)
    requires Modest(oid) && Modest(parameters) && Modest(payload) && start <= |data| < 0x1_0000_0000
    requires Tlv(w, data, 0, |data|) == Some(TlvView(0x30, start, |data| - start, |data|))
    requires At(data, start, Algorithm(oid, parameters) + EncodeTlv(0x04, payload))
    requires start + |Algorithm(oid, parameters)| + |EncodeTlv(0x04, payload)| == |data| && |payload| < |data|
    ensures Payload(w, data) == if oid == PROTECTOR_OID then Some(payload) else None
  {
    hide EncodeTlv, Tlv, Algorithm, At;
    AtSplit(data, start, Algorithm(oid, parameters), EncodeTlv(0x04, payload));
    AlgorithmRead(w, data, start, |data|, oid, parameters);
    var a := Tlv(w, data, start, |data|).value;
    TlvOfEncoded(w, data, a.next, |data|, 0x04, payload);
    ContentAt(data, Tlv(w, data, a.next, |data|).value, payload);
  }

  lemma KeyInfoIs(oid: Bytes, parameters: Bytes, payload: Bytes)
    requires Modest(oid) && Modest(parameters) && Modest(payload)
    ensures var inner := Algorithm(oid, parameters) + EncodeTlv(0x04, payload);
      |inner| < 0x8000_0000_0000_0000 && KeyInfo(oid, parameters, payload) == EncodeTlv(0x30, inner)
  {
    hide EncodeTlv, Algorithm;
    KeyInfoSizes(oid, parameters, payload);
  }

  lemma ContentAt(data: Bytes, v: TlvView, value: Bytes)
    requires v.start + v.length == v.next <= |data| && At(data, v.start, value) && |value| == v.length
    ensures ValueOf(data, v) == value
  {
  }

  /** A protected key, as the keystore holds it. */
  function Protect(key: Bytes, password: Bytes, salt: Bytes, parameters: Bytes): (r: Bytes)
    requires |salt| == SALT && Modest(parameters) && |key| < 0x800_0000_0000_0000
  {
    KeyInfo(PROTECTOR_OID, parameters, Wrap(key, password, salt))
  }

  /** The right password recovers the key, for every salt and all algorithm parameters. */
  lemma ProtectedIsRecovered(w: WordSize, key: Bytes, password: Bytes, salt: Bytes, parameters: Bytes)
    requires |salt| == SALT && Modest(parameters) && |key| < 0x800_0000_0000_0000
    requires password != [] && PasswordBytes(password).Some?
    requires |Protect(key, PasswordBytes(password).value, salt, parameters)| < 0x1_0000_0000
    ensures Recover(w, Protect(key, PasswordBytes(password).value, salt, parameters), password) == Some(key)
  {
    hide Payload, PasswordBytes, Unwrap, Wrap, KeyInfo;
    var p := PasswordBytes(password).value;
    PayloadOfKeyInfo(w, PROTECTOR_OID, parameters, Wrap(key, p, salt), []);
    UnwrapWrapped(key, p, salt);
    NothingAfter(Protect(key, p, salt, parameters));
  }

  lemma NothingAfter(s: Bytes)
    ensures s + [] == s
  {
  }

  /** Whatever is recovered carries the digest of itself and the password; nothing else is ever returned. */
  lemma RecoveredIsIntact(w: WordSize, data: Bytes, password: Bytes)
    requires Recover(w, data, password).Some?
    ensures PasswordBytes(password).Some? && Payload(w, data).Some? && |Payload(w, data).value| >= SALT + DIGEST
    ensures var payload, p := Payload(w, data).value, PasswordBytes(password).value;
      var key := Recover(w, data, password).value;
      payload == Wrap(key, p, payload[..SALT])
  {
    hide Payload, PasswordBytes, Digest, KeyStream, XorAll;
    var payload, p, key := Payload(w, data).value, PasswordBytes(password).value, Recover(w, data, password).value;
    var n := |payload| - SALT - DIGEST;
    XorAllTwice(payload[SALT..SALT + n], KeyStream(p, payload[..SALT], n));
    assert payload == payload[..SALT] + payload[SALT..SALT + n] + payload[SALT + n..];
  }
}
