/**
 The decision on a bag depends on nothing but the octets of its own EncryptedPrivateKeyInfo: wherever they stand in a
 container, they are read as they would be by themselves.
 */
module Zs2Local {
  import opened ByteStrings
  import opened Der
  import opened Zs2

  function Moved(v: TlvView, d: nat): (r: TlvView) { v.(start := v.start + d, next := v.next + d) }

  function MovedOption(v: Option<TlvView>, d: nat): (r: Option<TlvView>) {
    if v.None? then None else Some(Moved(v.value, d))
  }

  lemma LengthMoves(data: Bytes, d: nat, piece: Bytes, off: nat, limit: nat)
    requires At(data, d, piece) && limit <= |piece|
    ensures var a, b := X690Length(data, d + off, d + limit), X690Length(piece, off, limit);
      a == if b.None? then None else Some(Length(b.value.length, d + b.value.start))
  {
    if off < limit {
      AtIndex(data, d, piece, off);
      var count := LengthOctets(piece[off]);
      if piece[off] >= 128 && off + 1 + count <= limit {
        SliceMoves(data, d, piece, off + 1, off + 1 + count);
      }
    }
  }

  lemma SliceMoves(data: Bytes, d: nat, piece: Bytes, from: nat, to: nat)
    requires At(data, d, piece) && from <= to <= |piece|
    ensures d + to <= |data| && data[d + from..d + to] == piece[from..to]
  {
    AtBounds(data, d, piece);
    var a, b := data[d + from..d + to], piece[from..to];
    forall i | 0 <= i < |b| ensures a[i] == b[i] { AtIndex(data, d, piece, from + i); }
  }

  lemma TlvMoves(w: WordSize, data: Bytes, d: nat, piece: Bytes, off: nat, limit: nat)
    requires At(data, d, piece) && limit <= |piece|
    ensures Tlv(w, data, d + off, d + limit) == MovedOption(Tlv(w, piece, off, limit), d)
  {
    hide X690Length;
    AtBounds(data, d, piece);
    if off < limit {
      AtIndex(data, d, piece, off);
      LengthMoves(data, d, piece, off + 1, limit);
      if off + 1 < limit { AtIndex(data, d, piece, off + 1); }
      hide At;
    }
  }

  lemma ContentMoves(data: Bytes, d: nat, piece: Bytes, v: TlvView)
    requires At(data, d, piece) && IsView(piece, v)
    ensures IsView(data, Moved(v, d)) && ValueOf(data, Moved(v, d)) == ValueOf(piece, v)
  {
    hide At;
    SliceMoves(data, d, piece, v.start, v.next);
  }

  lemma ChildMoves(w: WordSize, data: Bytes, d: nat, piece: Bytes, off: nat, limit: nat, tag: Byte)
    requires At(data, d, piece) && limit <= |piece|
    ensures Child(w, data, d + off, d + limit, tag) == MovedOption(Child(w, piece, off, limit, tag), d)
  {
    hide At, Tlv;
    TlvMoves(w, data, d, piece, off, limit);
  }

  lemma OidMoves(w: WordSize, data: Bytes, d: nat, piece: Bytes, off: nat, limit: nat, oid: Bytes)
    requires At(data, d, piece) && limit <= |piece|
    ensures Oid(w, data, d + off, d + limit, oid) == MovedOption(Oid(w, piece, off, limit, oid), d)
  {
    hide At, Tlv, ValueOf;
    TlvMoves(w, data, d, piece, off, limit);
    var v := Tlv(w, piece, off, limit);
    if v.Some? { ContentMoves(data, d, piece, v.value); }
  }

  function MovedKdf(k: Kdf, d: nat): (r: Kdf) {
    Kdf(Moved(k.kdf, d), Moved(k.parameters, d), Moved(k.salt, d), Moved(k.count, d))
  }

  function MovedScheme(s: Scheme, d: nat): (r: Scheme) {
    Scheme(Moved(s.scheme, d), Moved(s.parameters, d), Moved(s.iv, d))
  }

  lemma PrfMoves(w: WordSize, data: Bytes, d: nat, piece: Bytes, inner: TlvView, count: TlvView)
    requires At(data, d, piece) && inner.next <= |piece|
    ensures PrfAt(w, data, Moved(inner, d), Moved(count, d)) == MovedOption(PrfAt(w, piece, inner, count), d)
  {
    hide At, Child, Oid;
    ChildMoves(w, data, d, piece, count.next, inner.next, 0x30);
    var prf := Child(w, piece, count.next, inner.next, 0x30);
    if prf.Some? { OidMoves(w, data, d, piece, prf.value.start, prf.value.next, KUPYNA_KMAC); }
  }

  function MovedFields(k: Option<Kdf>, d: nat): (r: Option<Kdf>) {
    if k.None? then None else Some(MovedKdf(k.value, d))
  }

  lemma FieldsMove(w: WordSize, data: Bytes, d: nat, piece: Bytes, kdf: TlvView, off: nat)
    requires At(data, d, piece) && kdf.next <= |piece|
    ensures FieldsAt(w, data, Moved(kdf, d), d + off) == MovedFields(FieldsAt(w, piece, kdf, off), d)
  {
    hide At, Child, ValueOf, PrfAt, BeValue;
    ChildMoves(w, data, d, piece, off, kdf.next, 0x30);
    var inner := Child(w, piece, off, kdf.next, 0x30);
    if inner.Some? {
      ChildMoves(w, data, d, piece, inner.value.start, inner.value.next, 0x04);
      var salt := Child(w, piece, inner.value.start, inner.value.next, 0x04);
      if salt.Some? {
        ChildMoves(w, data, d, piece, salt.value.next, inner.value.next, 0x02);
        var count := Child(w, piece, salt.value.next, inner.value.next, 0x02);
        if count.Some? {
          ContentMoves(data, d, piece, count.value);
          PrfMoves(w, data, d, piece, inner.value, count.value);
        }
      }
    }
  }

  lemma KdfMoves(w: WordSize, data: Bytes, d: nat, piece: Bytes, p: TlvView)
    requires At(data, d, piece) && IsView(piece, p)
    ensures KdfAt(w, data, Moved(p, d)) == MovedFields(KdfAt(w, piece, p), d)
  {
    hide At, Child, Oid, FieldsAt, MovedFields;
    ChildMoves(w, data, d, piece, p.start, p.next, 0x30);
    var kdf := Child(w, piece, p.start, p.next, 0x30);
    if kdf.Some? {
      OidMoves(w, data, d, piece, kdf.value.start, kdf.value.next, PBKDF2);
      var oid := Oid(w, piece, kdf.value.start, kdf.value.next, PBKDF2);
      if oid.Some? { FieldsMove(w, data, d, piece, kdf.value, oid.value.next); }
    }
    NoFields(d);
  }

  lemma NoFields(d: nat)
    ensures MovedFields(None, d) == None
  {
  }

  lemma SchemeMoves(w: WordSize, data: Bytes, d: nat, piece: Bytes, kdf: TlvView, p: TlvView)
    requires At(data, d, piece) && IsView(piece, p)
    ensures var s := SchemeAt(w, piece, kdf, p);
      SchemeAt(w, data, Moved(kdf, d), Moved(p, d)) == if s.None? then None else Some(MovedScheme(s.value, d))
  {
    hide At, Child, Oid;
    ChildMoves(w, data, d, piece, kdf.next, p.next, 0x30);
    var scheme := Child(w, piece, kdf.next, p.next, 0x30);
    if scheme.Some? {
      OidMoves(w, data, d, piece, scheme.value.start, scheme.value.next, KALYNA_CBC);
      var oid := Oid(w, piece, scheme.value.start, scheme.value.next, KALYNA_CBC);
      if oid.Some? {
        ChildMoves(w, data, d, piece, oid.value.next, scheme.value.next, 0x30);
        var inner := Child(w, piece, oid.value.next, scheme.value.next, 0x30);
        if inner.Some? { ChildMoves(w, data, d, piece, inner.value.start, inner.value.next, 0x04); }
      }
    }
  }

  function MovedEncryption(e: Encryption, d: nat): (r: Encryption) {
    Encryption(Moved(e.algorithm, d), Moved(e.parameters, d), MovedKdf(e.kdf, d), MovedScheme(e.scheme, d),
               Moved(e.body, d))
  }

  lemma SchemesMove(w: WordSize, data: Bytes, d: nat, piece: Bytes, p: TlvView)
    requires At(data, d, piece) && IsView(piece, p)
    ensures var s := SchemesAt(w, piece, p);
      SchemesAt(w, data, Moved(p, d)) ==
        if s.None? then None else Some((MovedKdf(s.value.0, d), MovedScheme(s.value.1, d)))
  {
    hide At, KdfAt, SchemeAt, MovedScheme;
    KdfMoves(w, data, d, piece, p);
    var kdf := KdfAt(w, piece, p);
    if kdf.Some? { SchemeMoves(w, data, d, piece, kdf.value.kdf, p); }
  }

  lemma EncryptionMoves(w: WordSize, data: Bytes, d: nat, piece: Bytes, epki: TlvView)
    requires At(data, d, piece) && IsView(piece, epki)
    ensures var e := EncryptionAt(w, piece, epki);
      EncryptionAt(w, data, Moved(epki, d)) == if e.None? then None else Some(MovedEncryption(e.value, d))
  {
    hide At, Child, Oid, SchemesAt, MovedKdf, MovedScheme;
    ChildMoves(w, data, d, piece, epki.start, epki.next, 0x30);
    var algorithm := Child(w, piece, epki.start, epki.next, 0x30);
    if algorithm.Some? {
      OidMoves(w, data, d, piece, algorithm.value.start, algorithm.value.next, PBES2);
      ChildMoves(w, data, d, piece, algorithm.value.next, epki.next, 0x04);
      var oid := Oid(w, piece, algorithm.value.start, algorithm.value.next, PBES2);
      if oid.Some? {
        ChildMoves(w, data, d, piece, oid.value.next, algorithm.value.next, 0x30);
        var parameters := Child(w, piece, oid.value.next, algorithm.value.next, 0x30);
        if parameters.Some? { SchemesMove(w, data, d, piece, parameters.value); }
      }
    }
  }

  // ---- A key by itself --------------------------------------------------------------------------

  /** The view of a buffer that holds the octets of one EncryptedPrivateKeyInfo and nothing else. */
  function Whole(key: Bytes): (v: TlvView) { TlvView(0x30, 0, |key|, |key|) }

  /** What the octets of an EncryptedPrivateKeyInfo give when they are read by themselves. */
  function Accepted(w: WordSize, key: Bytes): (r: Option<Bag>) {
    match EncryptionAt(w, key, Whole(key))
    case None => None
    case Some(e) => EncryptionNests(w, key, Whole(key)); Some(BagOf(key, e, Whole(key)))
  }

  /** In a container they give the same. */
  lemma DecisionIsLocal(w: WordSize, data: Bytes, epki: TlvView, key: Bytes)
    requires epki.start + epki.length == epki.next <= |data| && epki.length == |key| && At(data, epki.start, key)
    ensures EncryptionAt(w, data, epki).Some? <==> Accepted(w, key).Some?
    ensures EncryptionAt(w, data, epki).Some? ==>
      && var e := EncryptionAt(w, data, epki).value;
      EncryptionOk(data, e, epki) && Some(BagOf(data, e, epki)) == Accepted(w, key)
  {
    hide At, EncryptionAt, EncryptionOk;
    var d := epki.start;
    EncryptionMoves(w, data, d, key, Whole(key));
    var there := EncryptionAt(w, key, Whole(key));
    SameSpan(w, data, epki, Moved(Whole(key), d));
    if there.Some? {
      EncryptionNests(w, key, Whole(key));
      EncryptionNests(w, data, epki);
      BagMoves(data, d, key, there.value, epki);
    }
  }

  /** Only the span of the outer element matters. */
  lemma SameSpan(w: WordSize, data: Bytes, a: TlvView, b: TlvView)
    requires a.start == b.start && a.next == b.next
    ensures EncryptionAt(w, data, a) == EncryptionAt(w, data, b)
  {
    hide Child, Oid, KdfAt, SchemeAt;
  }

  lemma BagMoves(data: Bytes, d: nat, key: Bytes, e: Encryption, epki: TlvView)
    requires At(data, d, key) && EncryptionOk(key, e, Whole(key)) && EncryptionOk(data, MovedEncryption(e, d), epki)
    ensures BagOf(data, MovedEncryption(e, d), epki) == BagOf(key, e, Whole(key))
  {
    hide At, ValueOf, BeValue;
    ContentMoves(data, d, key, e.kdf.salt);
    ContentMoves(data, d, key, e.kdf.count);
    ContentMoves(data, d, key, e.scheme.iv);
    ContentMoves(data, d, key, e.body);
  }
}
