/**
 Encrypted keys as they are written: the PBES2 parameters of section 6.2 of RFC 8018 with every identifier, optional
 field and size left open, and the exact condition under which the walk takes such a key.
 */
module Zs2Keys {
  import opened ByteStrings
  import opened Der
  import opened Zs2
  import opened Zs2Local

  // ---- Elements ---------------------------------------------------------------------------------

  function LengthField(n: nat): (r: Bytes) { if n < 0x1_0000_0000_0000_0000 then EncodeLength(n) else [] }

  /** An element; only lengths of at most eight octets are written properly. */
  function Element(tag: Byte, value: Bytes): (r: Bytes)
    ensures |r| > |value|
  {
    [tag] + LengthField(|value|) + value
  }

  // ---- Reading elements back --------------------------------------------------------------------

  /** A view of an element that holds a value. */
  predicate Holds(data: Bytes, v: TlvView, value: Bytes) {
    v.start + v.length == v.next <= |data| && v.length == |value| && At(data, v.start, value)
  }

  lemma ElementReads(w: WordSize, data: Bytes, off: nat, limit: nat, tag: Byte, value: Bytes)
    requires At(data, off, Element(tag, value)) && off + |Element(tag, value)| <= limit && |data| < WordLimit(w)
    ensures Tlv(w, data, off, limit).Some?
    ensures var v := Tlv(w, data, off, limit).value;
      v.tag == tag && Holds(data, v, value) && v.next == off + |Element(tag, value)|
    ensures off + |Element(tag, value)| <= |data|
  {
    hide EncodeLength, Tlv, At;
    AtBounds(data, off, Element(tag, value));
    assert Element(tag, value) == EncodeTlv(tag, value);
    TlvOfEncoded(w, data, off, limit, tag, value);
  }

  lemma ChildReads(w: WordSize, data: Bytes, off: nat, limit: nat, tag: Byte, value: Bytes) returns (v: TlvView)
    requires At(data, off, Element(tag, value)) && off + |Element(tag, value)| <= limit && |data| < WordLimit(w)
    ensures Child(w, data, off, limit, tag) == Some(v) && Holds(data, v, value)
    ensures v.next == off + |Element(tag, value)| <= |data|
  {
    hide Tlv, At, Element;
    ElementReads(w, data, off, limit, tag, value);
    v := Tlv(w, data, off, limit).value;
  }

  lemma OidReads(w: WordSize, data: Bytes, off: nat, limit: nat, oid: Bytes) returns (v: TlvView)
    requires At(data, off, Element(0x06, oid)) && off + |Element(0x06, oid)| <= limit && |data| < WordLimit(w)
    ensures Oid(w, data, off, limit, oid) == Some(v) && v.next == off + |Element(0x06, oid)| <= |data|
  {
    hide Tlv, Element;
    ElementReads(w, data, off, limit, 0x06, oid);
    v := Tlv(w, data, off, limit).value;
  }

  lemma ContentHeld(data: Bytes, v: TlvView, value: Bytes)
    requires Holds(data, v, value)
    ensures IsView(data, v) && ValueOf(data, v) == value
  {
  }

  lemma HeldSplit(data: Bytes, v: TlvView, a: Bytes, b: Bytes)
    requires Holds(data, v, a + b)
    ensures At(data, v.start, a) && At(data, v.start + |a|, b) && v.start + |a| + |b| == v.next
  {
    hide At;
    AtSplit(data, v.start, a, b);
  }

  lemma HeldLength(data: Bytes, v: TlvView, value: Bytes)
    requires Holds(data, v, value)
    ensures v.length == |value|
  {
  }

  lemma WholeHeld(data: Bytes, v: TlvView, value: Bytes)
    requires Holds(data, v, value)
    ensures At(data, v.start, value) && v.start + |value| == v.next
  {
  }

  /** Another identifier, or another tag, is not taken. */
  lemma OidRefused(w: WordSize, data: Bytes, off: nat, limit: nat, written: Bytes, oid: Bytes)
    requires At(data, off, Element(0x06, written)) && off + |Element(0x06, written)| <= limit && |data| < WordLimit(w)
    requires written != oid
    ensures Oid(w, data, off, limit, oid) == None
  {
    hide Tlv, At, Element;
    ElementReads(w, data, off, limit, 0x06, written);
    ContentHeld(data, Tlv(w, data, off, limit).value, written);
  }

  lemma ChildRefused(w: WordSize, data: Bytes, off: nat, limit: nat, written: Byte, value: Bytes, tag: Byte)
    requires At(data, off, Element(written, value)) && off + |Element(written, value)| <= limit && |data| < WordLimit(w)
    requires written != tag
    ensures Child(w, data, off, limit, tag) == None
  {
    hide Tlv, At, Element;
    ElementReads(w, data, off, limit, written, value);
  }

  lemma NothingToRead(w: WordSize, data: Bytes, off: nat, tag: Byte)
    ensures Child(w, data, off, off, tag) == None
  {
  }

  // ---- The parameters ---------------------------------------------------------------------------

  datatype Prf = Prf(oid: Bytes, parameters: Bytes)

  /** A key derivation function: PBKDF2's fields, or the parameters of another one. */
  datatype KdfShape =
    | Pbkdf2(salt: Bytes, count: Bytes, keyLength: Option<Bytes>, prf: Option<Prf>)
    | OtherKdf(oid: Bytes, parameters: Bytes)

  /** An encryption scheme: Kalyna's fields, or the parameters of another one. */
  datatype SchemeShape =
    | Kalyna(iv: Bytes, rest: Bytes)
    | OtherScheme(oid: Bytes, parameters: Bytes)

  /** A key under PBES2, or under another algorithm. */
  datatype KeyShape =
    | Pbes2(kdf: KdfShape, scheme: SchemeShape, ciphertext: Bytes)
    | OtherAlgorithm(oid: Bytes, parameters: Bytes, rest: Bytes)

  /** "Other" means another identifier. */
  predicate ShapeOk(k: KeyShape) {
    match k
    case Pbes2(kdf, scheme, _) =>
      (kdf.OtherKdf? ==> kdf.oid != PBKDF2) && (scheme.OtherScheme? ==> scheme.oid != KALYNA_CBC)
    case OtherAlgorithm(oid, _, _) => oid != PBES2
  }

  predicate KdfMatches(k: KdfShape) {
    && k.Pbkdf2? && 1 <= |k.count| <= 4 && BeValue(k.count) != 0 && k.keyLength.None?
    && k.prf.Some? && k.prf.value.oid == KUPYNA_KMAC
  }

  predicate SchemeMatches(s: SchemeShape) { s.Kalyna? && |s.iv| == BLOCK }

  /** The condition: PBKDF2 with the KMAC named and no key length, a count of one to four octets that is not zero,
      Kalyna with a whole block of IV, and whole blocks of ciphertext. */
  predicate Matches(k: KeyShape) {
    && k.Pbes2? && KdfMatches(k.kdf) && SchemeMatches(k.scheme)
    && k.ciphertext != [] && |k.ciphertext| % BLOCK == 0
  }

  function Contents(k: KeyShape): (r: Bag)
    requires Matches(k)
  {
    Bag(k.kdf.salt, k.scheme.iv, k.ciphertext, BeValue(k.kdf.count))
  }

  function PrfText(prf: Prf): (r: Bytes) { Element(0x30, Element(0x06, prf.oid) + prf.parameters) }

  /** What follows the count. */
  function AfterCount(keyLength: Option<Bytes>, prf: Option<Prf>): (r: Bytes) {
    (if keyLength.Some? then Element(0x02, keyLength.value) else []) + (if prf.Some? then PrfText(prf.value) else [])
  }

  function KdfFields(k: KdfShape): (r: Bytes)
    requires k.Pbkdf2?
  {
    Element(0x30, Element(0x04, k.salt) + Element(0x02, k.count) + AfterCount(k.keyLength, k.prf))
  }

  function KdfText(k: KdfShape): (r: Bytes) {
    Element(0x30, if k.Pbkdf2? then Element(0x06, PBKDF2) + KdfFields(k) else Element(0x06, k.oid) + k.parameters)
  }

  function IvText(iv: Bytes, rest: Bytes): (r: Bytes) { Element(0x30, Element(0x04, iv) + rest) }

  function SchemeText(s: SchemeShape): (r: Bytes) {
    if s.Kalyna? then Element(0x30, Element(0x06, KALYNA_CBC) + IvText(s.iv, s.rest))
    else Element(0x30, Element(0x06, s.oid) + s.parameters)
  }

  function AlgorithmText(oid: Bytes, parameters: Bytes): (r: Bytes) { Element(0x30, Element(0x06, oid) + parameters) }

  /** The octets inside the EncryptedPrivateKeyInfo. */
  function KeyText(k: KeyShape): (r: Bytes) {
    match k
    case Pbes2(kdf, scheme, ciphertext) =>
      AlgorithmText(PBES2, Element(0x30, KdfText(kdf) + SchemeText(scheme))) + Element(0x04, ciphertext)
    case OtherAlgorithm(oid, parameters, rest) => AlgorithmText(oid, parameters) + rest
  }

  // ---- The key derivation function ----------------------------------------------------------------

  /** Where the PRF should stand. */
  lemma PrfRead(w: WordSize, data: Bytes, off: nat, limit: nat, keyLength: Option<Bytes>, prf: Option<Prf>)
    requires At(data, off, AfterCount(keyLength, prf))
    requires off + |AfterCount(keyLength, prf)| == limit && |data| < WordLimit(w)
    ensures var p := Child(w, data, off, limit, 0x30);
      (p.Some? && Oid(w, data, p.value.start, p.value.next, KUPYNA_KMAC).Some?) <==>
      keyLength.None? && prf.Some? && prf.value.oid == KUPYNA_KMAC
  {
    hide At, Element, Child, Oid, Holds;
    if keyLength.Some? {
      AtSplit(data, off, Element(0x02, keyLength.value), if prf.Some? then PrfText(prf.value) else []);
      ChildRefused(w, data, off, limit, 0x02, keyLength.value, 0x30);
    } else if prf.None? {
      assert AfterCount(keyLength, prf) == [];
      NothingToRead(w, data, off, 0x30);
    } else {
      var inner := Element(0x06, prf.value.oid) + prf.value.parameters;
      assert AfterCount(keyLength, prf) == Element(0x30, inner);
      var p := ChildReads(w, data, off, limit, 0x30, inner);
      HeldSplit(data, p, Element(0x06, prf.value.oid), prf.value.parameters);
      if prf.value.oid == KUPYNA_KMAC {
        var kmac := OidReads(w, data, p.start, p.next, KUPYNA_KMAC);
      } else {
        OidRefused(w, data, p.start, p.next, prf.value.oid, KUPYNA_KMAC);
      }
    }
  }

  lemma FieldsRead(w: WordSize, data: Bytes, off: nat, limit: nat, k: KdfShape)
    returns (inner: TlvView, salt: TlvView, count: TlvView)
    requires k.Pbkdf2? && At(data, off, KdfFields(k)) && off + |KdfFields(k)| <= limit && |data| < WordLimit(w)
    ensures Child(w, data, off, limit, 0x30) == Some(inner)
    ensures Child(w, data, inner.start, inner.next, 0x04) == Some(salt) && Holds(data, salt, k.salt)
    ensures Child(w, data, salt.next, inner.next, 0x02) == Some(count) && Holds(data, count, k.count)
    ensures var p := Child(w, data, count.next, inner.next, 0x30);
      (p.Some? && Oid(w, data, p.value.start, p.value.next, KUPYNA_KMAC).Some?) <==>
      k.keyLength.None? && k.prf.Some? && k.prf.value.oid == KUPYNA_KMAC
  {
    hide At, Element, Holds, Child, Oid, AfterCount;
    var front := Element(0x04, k.salt) + Element(0x02, k.count);
    var after := AfterCount(k.keyLength, k.prf);
    inner := ChildReads(w, data, off, limit, 0x30, front + after);
    HeldSplit(data, inner, front, after);
    AtSplit(data, inner.start, Element(0x04, k.salt), Element(0x02, k.count));
    salt := ChildReads(w, data, inner.start, inner.next, 0x04, k.salt);
    count := ChildReads(w, data, salt.next, inner.next, 0x02, k.count);
    PrfRead(w, data, count.next, inner.next, k.keyLength, k.prf);
  }

  /** PBKDF2 is taken exactly when it matches, and then salt and count are its own. */
  lemma KdfReads(w: WordSize, data: Bytes, parameters: TlvView, k: KdfShape, rest: Bytes) returns (next: nat)
    requires Holds(data, parameters, KdfText(k) + rest) && |data| < WordLimit(w)
    requires k.OtherKdf? ==> k.oid != PBKDF2
    ensures KdfAt(w, data, parameters).Some? <==> KdfMatches(k)
    ensures At(data, next, rest) && next + |rest| == parameters.next
    ensures KdfMatches(k) ==>
      && var r := KdfAt(w, data, parameters).value;
      r.kdf.next == next && Holds(data, r.salt, k.salt) && Holds(data, r.count, k.count)
  {
    hide At, Element, Holds, Child, Oid, BeValue, KdfFields, ValueOf;
    HeldSplit(data, parameters, KdfText(k), rest);
    next := parameters.start + |KdfText(k)|;
    if k.OtherKdf? {
      var kdf := ChildReads(w, data, parameters.start, parameters.next, 0x30, Element(0x06, k.oid) + k.parameters);
      HeldSplit(data, kdf, Element(0x06, k.oid), k.parameters);
      OidRefused(w, data, kdf.start, kdf.next, k.oid, PBKDF2);
    } else {
      var kdf := ChildReads(w, data, parameters.start, parameters.next, 0x30, Element(0x06, PBKDF2) + KdfFields(k));
      HeldSplit(data, kdf, Element(0x06, PBKDF2), KdfFields(k));
      var oid := OidReads(w, data, kdf.start, kdf.next, PBKDF2);
      var inner, salt, count := FieldsRead(w, data, oid.next, kdf.next, k);
      ContentHeld(data, count, k.count);
      HeldLength(data, count, k.count);
    }
  }

  // ---- The encryption scheme ----------------------------------------------------------------------

  lemma SchemeReads(w: WordSize, data: Bytes, kdf: TlvView, parameters: TlvView, s: SchemeShape)
    requires At(data, kdf.next, SchemeText(s)) && kdf.next + |SchemeText(s)| == parameters.next
    requires (s.OtherScheme? ==> s.oid != KALYNA_CBC) && |data| < WordLimit(w)
    ensures SchemeAt(w, data, kdf, parameters).Some? <==> SchemeMatches(s)
    ensures SchemeMatches(s) ==> Holds(data, SchemeAt(w, data, kdf, parameters).value.iv, s.iv)
  {
    hide At, Element, Holds, Child, Oid;
    if s.OtherScheme? {
      var scheme := ChildReads(w, data, kdf.next, parameters.next, 0x30, Element(0x06, s.oid) + s.parameters);
      HeldSplit(data, scheme, Element(0x06, s.oid), s.parameters);
      OidRefused(w, data, scheme.start, scheme.next, s.oid, KALYNA_CBC);
    } else {
      var text := Element(0x06, KALYNA_CBC) + IvText(s.iv, s.rest);
      var scheme := ChildReads(w, data, kdf.next, parameters.next, 0x30, text);
      HeldSplit(data, scheme, Element(0x06, KALYNA_CBC), IvText(s.iv, s.rest));
      var oid := OidReads(w, data, scheme.start, scheme.next, KALYNA_CBC);
      var inner := ChildReads(w, data, oid.next, scheme.next, 0x30, Element(0x04, s.iv) + s.rest);
      HeldSplit(data, inner, Element(0x04, s.iv), s.rest);
      var iv := ChildReads(w, data, inner.start, inner.next, 0x04, s.iv);
      HeldLength(data, iv, s.iv);
    }
  }

  // ---- The key ----------------------------------------------------------------------------------

  lemma AlgorithmReads(w: WordSize, data: Bytes, epki: TlvView, parameters: Bytes, rest: Bytes)
    returns (algorithm: TlvView, oid: TlvView)
    requires Holds(data, epki, AlgorithmText(PBES2, parameters) + rest) && |data| < WordLimit(w)
    ensures Child(w, data, epki.start, epki.next, 0x30) == Some(algorithm)
    ensures Oid(w, data, algorithm.start, algorithm.next, PBES2) == Some(oid)
    ensures At(data, oid.next, parameters) && oid.next + |parameters| == algorithm.next
    ensures At(data, algorithm.next, rest) && algorithm.next + |rest| == epki.next
  {
    hide At, Element, Holds, Child, Oid;
    HeldSplit(data, epki, AlgorithmText(PBES2, parameters), rest);
    algorithm := ChildReads(w, data, epki.start, epki.next, 0x30, Element(0x06, PBES2) + parameters);
    HeldSplit(data, algorithm, Element(0x06, PBES2), parameters);
    oid := OidReads(w, data, algorithm.start, algorithm.next, PBES2);
  }

  lemma Pbes2Reads(w: WordSize, data: Bytes, epki: TlvView, k: KeyShape)
    requires k.Pbes2? && ShapeOk(k) && Holds(data, epki, KeyText(k)) && |data| < WordLimit(w)
    ensures EncryptionAt(w, data, epki).Some? <==> Matches(k)
    ensures Matches(k) ==>
      && var e := EncryptionAt(w, data, epki).value;
      EncryptionOk(data, e, epki) && BagOf(data, e, epki) == Contents(k)
  {
    hide At, Element, Holds, Child, Oid, KdfAt, SchemeAt, KdfText, SchemeText, BeValue, EncryptionOk;
    var pair := KdfText(k.kdf) + SchemeText(k.scheme);
    var algorithm, oid := AlgorithmReads(w, data, epki, Element(0x30, pair), Element(0x04, k.ciphertext));
    var parameters := ChildReads(w, data, oid.next, algorithm.next, 0x30, pair);
    var next := KdfReads(w, data, parameters, k.kdf, SchemeText(k.scheme));
    var body := ChildReads(w, data, algorithm.next, epki.next, 0x04, k.ciphertext);
    HeldLength(data, body, k.ciphertext);
    var kdf := KdfAt(w, data, parameters);
    if kdf.Some? {
      SchemeReads(w, data, kdf.value.kdf, parameters, k.scheme);
      var scheme := SchemeAt(w, data, kdf.value.kdf, parameters);
      if Matches(k) {
        EncryptionNests(w, data, epki);
        ContentHeld(data, kdf.value.salt, k.kdf.salt);
        ContentHeld(data, kdf.value.count, k.kdf.count);
        ContentHeld(data, scheme.value.iv, k.scheme.iv);
        ContentHeld(data, body, k.ciphertext);
      }
    }
  }

  lemma OtherRefused(w: WordSize, data: Bytes, epki: TlvView, k: KeyShape)
    requires k.OtherAlgorithm? && ShapeOk(k) && Holds(data, epki, KeyText(k)) && |data| < WordLimit(w)
    ensures EncryptionAt(w, data, epki) == None
  {
    hide At, Element, Holds, Child, Oid, KdfAt, SchemeAt;
    HeldSplit(data, epki, AlgorithmText(k.oid, k.parameters), k.rest);
    var algorithm := ChildReads(w, data, epki.start, epki.next, 0x30, Element(0x06, k.oid) + k.parameters);
    HeldSplit(data, algorithm, Element(0x06, k.oid), k.parameters);
    OidRefused(w, data, algorithm.start, algorithm.next, k.oid, PBES2);
  }

  /** A written key is taken exactly when it matches: another algorithm, another key derivation, a key length, another
      PRF or none, another cipher, and a wrong count, IV or body are all refused. What is taken comes out as written. */
  lemma KeyIsTaken(w: WordSize, k: KeyShape)
    requires ShapeOk(k) && |KeyText(k)| < WordLimit(w)
    ensures Accepted(w, KeyText(k)) == if Matches(k) then Some(Contents(k)) else None
  {
    hide EncryptionAt, KeyText, Matches, Contents, EncryptionOk;
    var key := KeyText(k);
    WholeKey(key);
    if k.Pbes2? {
      Pbes2Reads(w, key, Whole(key), k);
    } else {
      OtherRefused(w, key, Whole(key), k);
      OtherNeverMatches(k);
    }
  }

  lemma OtherNeverMatches(k: KeyShape)
    requires k.OtherAlgorithm?
    ensures !Matches(k)
  {
  }

  lemma WholeKey(key: Bytes)
    ensures Holds(key, Whole(key), key)
  {
    AtWhole(key);
  }
}
