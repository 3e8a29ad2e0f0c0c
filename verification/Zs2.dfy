/**
 The walk through a .ZS2 key container (src/lib/core/KeyParsers.cpp:1022-1250): PFX, authenticated safe, safe contents
 and bags of section 4 of RFC 7292, and the PBES2 parameters of section 6.2 of RFC 8018. It terminates on every input;
 whatever it copies lies inside every element around it.
 */
module Zs2 {
  import opened ByteStrings
  import opened Der

  const BLOCK: nat := 32
  const DATA: Bytes := [0x2A, 0x86, 0x48, 0x86, 0xF7, 0x0D, 0x01, 0x07, 0x01]
  const SHROUDED: Bytes := [0x2A, 0x86, 0x48, 0x86, 0xF7, 0x0D, 0x01, 0x0C, 0x0A, 0x01, 0x02]
  const PBES2: Bytes := [0x2A, 0x86, 0x48, 0x86, 0xF7, 0x0D, 0x01, 0x05, 0x0D]
  const PBKDF2: Bytes := [0x2A, 0x86, 0x48, 0x86, 0xF7, 0x0D, 0x01, 0x05, 0x0C]
  const KUPYNA_KMAC: Bytes := [0x2A, 0x86, 0x24, 0x02, 0x01, 0x01, 0x01, 0x01, 0x02, 0x02, 0x04]
  const KALYNA_CBC: Bytes := [0x2A, 0x86, 0x24, 0x02, 0x01, 0x01, 0x01, 0x01, 0x01, 0x03, 0x05, 0x02]

  // ---- Elements and what they contain -------------------------------------------------------------

  /** The element lies in the value of another. */
  predicate In(v: TlvView, parent: TlvView) { parent.start < v.start && v.start + v.length == v.next <= parent.next }

  /** Each element lies in the one before it. */
  predicate Chain(path: seq<TlvView>) { forall i :: 0 < i < |path| ==> In(path[i], path[i - 1]) }

  /** The element with a tag at an offset. */
  function Child(w: WordSize, data: Bytes, from: nat, limit: nat, tag: Byte): (r: Option<TlvView>)
    ensures r.Some? ==> IsView(data, r.value) && from < r.value.start && r.value.next <= limit
  {
    var v := Tlv(w, data, from, limit);
    if v.Some? && v.value.tag == tag then v else None
  }

  predicate IsOid(data: Bytes, v: TlvView, oid: Bytes) { IsView(data, v) && v.tag == 0x06 && ValueOf(data, v) == oid }

  /** A given object identifier at an offset. */
  function Oid(w: WordSize, data: Bytes, from: nat, limit: nat, oid: Bytes): (r: Option<TlvView>)
    ensures r.Some? ==> IsView(data, r.value) && from < r.value.start && r.value.next <= limit
  {
    var v := Tlv(w, data, from, limit);
    if v.Some? && IsOid(data, v.value, oid) then v else None
  }

  method FindChild(w: WordSize, data: Bytes, from: nat, limit: nat, tag: Byte) returns (ok: bool, v: TlvView)
    requires |data| < WordLimit(w) && from < WordLimit(w)
    ensures ok <==> Child(w, data, from, limit, tag).Some?
    ensures ok ==> Child(w, data, from, limit, tag) == Some(v)
  {
    hide Tlv;
    ok, v := ParseTlvAt(w, data, from, limit);
    if ok && v.tag != tag { ok := false; }
  }

  method OidEquals(data: Bytes, v: TlvView, oid: Bytes) returns (same: bool)
    requires IsView(data, v)
    ensures same == IsOid(data, v, oid)
  {
    same := v.tag == 0x06 && v.length == |oid| && data[v.start..v.start + |oid|] == oid;
  }

  method FindOid(w: WordSize, data: Bytes, from: nat, limit: nat, oid: Bytes) returns (ok: bool, v: TlvView)
    requires |data| < WordLimit(w) && from < WordLimit(w)
    ensures ok <==> Oid(w, data, from, limit, oid).Some?
    ensures ok ==> Oid(w, data, from, limit, oid) == Some(v)
  {
    hide Tlv, IsOid;
    ok, v := ParseTlvAt(w, data, from, limit);
    if ok { ok := OidEquals(data, v, oid); }
  }

  // ---- The encryption of a bag --------------------------------------------------------------------

  datatype Kdf = Kdf(kdf: TlvView, parameters: TlvView, salt: TlvView, count: TlvView)

  datatype Scheme = Scheme(scheme: TlvView, parameters: TlvView, iv: TlvView)

  datatype Encryption = Encryption(algorithm: TlvView, parameters: TlvView, kdf: Kdf, scheme: Scheme, body: TlvView)

  datatype Bag = Bag(salt: Bytes, iv: Bytes, ciphertext: Bytes, iterations: nat)

  predicate KdfOk(data: Bytes, k: Kdf, parameters: TlvView) {
    && In(k.kdf, parameters) && In(k.parameters, k.kdf) && In(k.salt, k.parameters) && In(k.count, k.parameters)
    && IsView(data, k.salt) && IsView(data, k.count) && 1 <= k.count.length <= 4
    && BeValue(ValueOf(data, k.count)) != 0
  }

  predicate SchemeOk(data: Bytes, s: Scheme, parameters: TlvView) {
    && In(s.scheme, parameters) && In(s.parameters, s.scheme) && In(s.iv, s.parameters)
    && IsView(data, s.iv) && s.iv.length == BLOCK
  }

  /** The whole nest: salt, count, IV and ciphertext inside every element around them, and of the right sizes. */
  predicate EncryptionOk(data: Bytes, e: Encryption, epki: TlvView) {
    && In(e.algorithm, epki) && In(e.parameters, e.algorithm) && KdfOk(data, e.kdf, e.parameters)
    && SchemeOk(data, e.scheme, e.parameters) && In(e.body, epki) && IsView(data, e.body)
    && e.body.length > 0 && e.body.length % BLOCK == 0
  }

  /** The PRF after the count. */
  function PrfAt(w: WordSize, data: Bytes, inner: TlvView, count: TlvView): (r: Option<TlvView>) {
    var prf :- Child(w, data, count.next, inner.next, 0x30);
    Oid(w, data, prf.start, prf.next, KUPYNA_KMAC)
  }

  /** PBKDF2's parameters, from the salt on. */
  function FieldsAt(w: WordSize, data: Bytes, kdf: TlvView, off: nat): (r: Option<Kdf>)
    ensures r.Some? ==> r.value.kdf == kdf
  {
    var inner :- Child(w, data, off, kdf.next, 0x30);
    var salt :- Child(w, data, inner.start, inner.next, 0x04);
    var count :- Child(w, data, salt.next, inner.next, 0x02);
    if count.length == 0 || count.length > 4 || BeValue(ValueOf(data, count)) == 0 then None else
    var prf :- PrfAt(w, data, inner, count);
    Some(Kdf(kdf, inner, salt, count))
  }

  function KdfAt(w: WordSize, data: Bytes, parameters: TlvView): (r: Option<Kdf>)
    ensures r.Some? ==> parameters.start < r.value.kdf.start && r.value.kdf.next <= |data|
  {
    var kdf :- Child(w, data, parameters.start, parameters.next, 0x30);
    var oid :- Oid(w, data, kdf.start, kdf.next, PBKDF2);
    FieldsAt(w, data, kdf, oid.next)
  }

  function SchemeAt(w: WordSize, data: Bytes, kdf: TlvView, parameters: TlvView): (r: Option<Scheme>)
  {
    var scheme :- Child(w, data, kdf.next, parameters.next, 0x30);
    var oid :- Oid(w, data, scheme.start, scheme.next, KALYNA_CBC);
    var inner :- Child(w, data, oid.next, scheme.next, 0x30);
    var iv :- Child(w, data, inner.start, inner.next, 0x04);
    if iv.length != BLOCK then None else Some(Scheme(scheme, inner, iv))
  }

  function SchemesAt(w: WordSize, data: Bytes, parameters: TlvView): (r: Option<(Kdf, Scheme)>) {
    var kdf :- KdfAt(w, data, parameters);
    var scheme :- SchemeAt(w, data, kdf.kdf, parameters);
    Some((kdf, scheme))
  }

  function EncryptionAt(w: WordSize, data: Bytes, epki: TlvView): (r: Option<Encryption>)
  {
    var algorithm :- Child(w, data, epki.start, epki.next, 0x30);
    var oid :- Oid(w, data, algorithm.start, algorithm.next, PBES2);
    var parameters :- Child(w, data, oid.next, algorithm.next, 0x30);
    var schemes :- SchemesAt(w, data, parameters);
    var body :- Child(w, data, algorithm.next, epki.next, 0x04);
    if body.length == 0 || body.length % BLOCK != 0 then None
    else Some(Encryption(algorithm, parameters, schemes.0, schemes.1, body))
  }

  lemma KdfNests(w: WordSize, data: Bytes, parameters: TlvView)
    requires KdfAt(w, data, parameters).Some?
    ensures KdfOk(data, KdfAt(w, data, parameters).value, parameters)
  {
    hide Child, Oid, ValueOf;
  }

  lemma SchemeNests(w: WordSize, data: Bytes, kdf: TlvView, parameters: TlvView)
    requires SchemeAt(w, data, kdf, parameters).Some? && In(kdf, parameters)
    ensures SchemeOk(data, SchemeAt(w, data, kdf, parameters).value, parameters)
  {
    hide Child, Oid;
  }

  /** Everything that is read lies where it should, and the sizes are right: on every input. */
  lemma EncryptionNests(w: WordSize, data: Bytes, epki: TlvView)
    requires EncryptionAt(w, data, epki).Some?
    ensures EncryptionOk(data, EncryptionAt(w, data, epki).value, epki)
  {
    hide Child, Oid, KdfAt, SchemeAt, KdfOk, SchemeOk;
    var e := EncryptionAt(w, data, epki).value;
    KdfNests(w, data, e.parameters);
    KdfIn(data, e.kdf, e.parameters);
    SchemeNests(w, data, e.kdf.kdf, e.parameters);
  }

  lemma KdfIn(data: Bytes, k: Kdf, parameters: TlvView)
    requires KdfOk(data, k, parameters)
    ensures In(k.kdf, parameters)
  {
  }

  /** What is copied out. */
  function BagOf(data: Bytes, e: Encryption, epki: TlvView): (r: Bag)
    requires EncryptionOk(data, e, epki)
  {
    Bag(ValueOf(data, e.kdf.salt), ValueOf(data, e.scheme.iv), ValueOf(data, e.body),
        BeValue(ValueOf(data, e.kdf.count)))
  }

  method ReadCount(data: Bytes, count: TlvView) returns (n: nat)
    requires IsView(data, count)
    ensures n == BeValue(ValueOf(data, count))
  {
    n := 0;
    for i := 0 to count.length
      invariant n == BeValue(data[count.start..count.start + i])
    {
      BeValueStep(data, count.start, i);
      n := n * 256 + data[count.start + i];
    }
  }

  method ParseKdf(w: WordSize, data: Bytes, parameters: TlvView) returns (r: Option<Kdf>)
    requires |data| < WordLimit(w) && IsView(data, parameters)
    ensures r == KdfAt(w, data, parameters)
  {
    hide Child, Oid, ValueOf, WordLimit;
    r := None;
    var ok, kdf := FindChild(w, data, parameters.start, parameters.next, 0x30);
    if !ok { return; }
    var oid;
    ok, oid := FindOid(w, data, kdf.start, kdf.next, PBKDF2);
    if !ok { return; }
    var inner;
    ok, inner := FindChild(w, data, oid.next, kdf.next, 0x30);
    if !ok { return; }
    var salt;
    ok, salt := FindChild(w, data, inner.start, inner.next, 0x04);
    if !ok { return; }
    var count;
    ok, count := FindChild(w, data, salt.next, inner.next, 0x02);
    if !ok || count.length == 0 || count.length > 4 { return; }
    var n := ReadCount(data, count);
    if n == 0 { return; }
    var prf;
    ok, prf := FindChild(w, data, count.next, inner.next, 0x30);
    if !ok { return; }
    var kmac;
    ok, kmac := FindOid(w, data, prf.start, prf.next, KUPYNA_KMAC);
    if !ok { return; }
    r := Some(Kdf(kdf, inner, salt, count));
  }

  method ParseScheme(w: WordSize, data: Bytes, kdf: TlvView, parameters: TlvView) returns (r: Option<Scheme>)
    requires |data| < WordLimit(w) && IsView(data, parameters) && kdf.next <= |data|
    ensures r == SchemeAt(w, data, kdf, parameters)
  {
    hide Child, Oid, ValueOf, WordLimit;
    r := None;
    var ok, scheme := FindChild(w, data, kdf.next, parameters.next, 0x30);
    if !ok { return; }
    var oid;
    ok, oid := FindOid(w, data, scheme.start, scheme.next, KALYNA_CBC);
    if !ok { return; }
    var inner;
    ok, inner := FindChild(w, data, oid.next, scheme.next, 0x30);
    if !ok { return; }
    var iv;
    ok, iv := FindChild(w, data, inner.start, inner.next, 0x04);
    if !ok || iv.length != BLOCK { return; }
    r := Some(Scheme(scheme, inner, iv));
  }

  method ParseZs2Encryption(w: WordSize, data: Bytes, epki: TlvView) returns (r: Option<Encryption>)
    requires |data| < WordLimit(w) && IsView(data, epki)
    ensures r == EncryptionAt(w, data, epki)
  {
    hide Child, Oid, ValueOf, KdfAt, SchemeAt, WordLimit;
    r := None;
    var ok, algorithm := FindChild(w, data, epki.start, epki.next, 0x30);
    if !ok { return; }
    var oid;
    ok, oid := FindOid(w, data, algorithm.start, algorithm.next, PBES2);
    if !ok { return; }
    var parameters;
    ok, parameters := FindChild(w, data, oid.next, algorithm.next, 0x30);
    if !ok { return; }
    var kdf := ParseKdf(w, data, parameters);
    if kdf.None? { return; }
    var scheme := ParseScheme(w, data, kdf.value.kdf, parameters);
    if scheme.None? { return; }
    var body;
    ok, body := FindChild(w, data, algorithm.next, epki.next, 0x04);
    if !ok || body.length == 0 || body.length % BLOCK != 0 { return; }
    r := Some(Encryption(algorithm, parameters, kdf.value, scheme.value, body));
  }

  // ---- The walk ---------------------------------------------------------------------------------

  datatype Info = Info(info: TlvView, wrapper: TlvView, octets: TlvView)

  /** A ContentInfo of type data; its content is an OCTET STRING. */
  function InfoAt(w: WordSize, data: Bytes, off: nat, limit: nat): (r: Option<Info>)
    ensures r.Some? ==> off < r.value.info.start && r.value.info.next <= limit && IsView(data, r.value.octets)
    ensures r.Some? ==> r.value.info.start < r.value.wrapper.start < r.value.octets.start
    ensures r.Some? ==> r.value.octets.next <= r.value.wrapper.next <= r.value.info.next <= |data|
  {
    var info :- Child(w, data, off, limit, 0x30);
    var oid :- Oid(w, data, info.start, info.next, DATA);
    var wrapper :- Child(w, data, oid.next, info.next, 0xA0);
    var octets :- Child(w, data, wrapper.start, wrapper.next, 0x04);
    Some(Info(info, wrapper, octets))
  }

  /** One bag: malformed, to be passed over, or the one sought. */
  datatype Scan = Bad | Skip(next: nat) | Hit(bag: TlvView, value: TlvView, epki: TlvView, e: Encryption)

  function ValueAt(w: WordSize, data: Bytes, bag: TlvView, from: nat): (r: Option<(TlvView, TlvView)>) {
    var value :- Child(w, data, from, bag.next, 0xA0);
    var epki :- Child(w, data, value.start, value.next, 0x30);
    Some((value, epki))
  }

  function BagAt(w: WordSize, data: Bytes, off: nat, limit: nat): (r: Scan)
    ensures r.Skip? ==> off < r.next <= limit && r.next <= |data|
  {
    var bag := Child(w, data, off, limit, 0x30);
    if bag.None? then Bad else
    var id := Tlv(w, data, bag.value.start, bag.value.next);
    if id.None? then Bad
    else if !IsOid(data, id.value, SHROUDED) then Skip(bag.value.next) else
    match ValueAt(w, data, bag.value, id.value.next)
    case None => Bad
    case Some(v) =>
      match EncryptionAt(w, data, v.1)
      case None => Skip(bag.value.next)
      case Some(e) => Hit(bag.value, v.0, v.1, e)
  }

  /** The outcome of a search, with the elements on the way in, down to the EncryptedPrivateKeyInfo. */
  datatype Verdict = Malformed | Nothing | Match(path: seq<TlvView>, e: Encryption)

  function BagsFrom(w: WordSize, data: Bytes, off: nat, limit: nat): (r: Verdict)
    decreases limit - off
  {
    if off >= limit then Nothing else
      match BagAt(w, data, off, limit)
      case Bad => Malformed
      case Skip(next) => BagsFrom(w, data, next, limit)
      case Hit(bag, value, epki, e) => Match([bag, value, epki], e)
  }

  function SafesFrom(w: WordSize, data: Bytes, off: nat, limit: nat): (r: Verdict)
    decreases limit - off
  {
    if off >= limit then Nothing else
    var i := InfoAt(w, data, off, limit);
    if i.None? then Malformed else
    var contents := Child(w, data, i.value.octets.start, i.value.octets.next, 0x30);
    if contents.None? then Malformed else
    match BagsFrom(w, data, contents.value.start, contents.value.next)
    case Malformed => Malformed
    case Nothing => SafesFrom(w, data, i.value.info.next, limit)
    case Match(path, e) => Match([i.value.info, i.value.wrapper, i.value.octets, contents.value] + path, e)
  }

  datatype Outer = Outer(pfx: TlvView, info: Info, safe: TlvView)

  /** The authenticated safe: a sequence of ContentInfo. */
  function OuterAt(w: WordSize, data: Bytes): (r: Option<Outer>) {
    var pfx :- Child(w, data, 0, |data|, 0x30);
    var version :- Child(w, data, pfx.start, pfx.next, 0x02);
    var info :- InfoAt(w, data, version.next, pfx.next);
    var safe :- Child(w, data, info.octets.start, info.octets.next, 0x30);
    Some(Outer(pfx, info, safe))
  }

  function OuterPath(o: Outer): (r: seq<TlvView>) { [o.pfx, o.info.info, o.info.wrapper, o.info.octets, o.safe] }

  /** The bag that is found, with everything around it. */
  datatype Place = Place(path: seq<TlvView>, e: Encryption)

  function FirstBag(w: WordSize, data: Bytes): (r: Option<Place>) {
    var o :- OuterAt(w, data);
    match SafesFrom(w, data, o.safe.start, o.safe.next)
    case Match(path, e) => Some(Place(OuterPath(o) + path, e))
    case _ => None
  }

  // ---- Everything copied lies inside everything around it ------------------------------------------

  /** A path of nested elements inside a span of the buffer, ending in the element that holds `e`. */
  predicate Leads(data: Bytes, path: seq<TlvView>, e: Encryption, from: nat, limit: nat) {
    && path != [] && from < path[0].start && path[0].next <= limit && Chain(path)
    && EncryptionOk(data, e, path[|path| - 1])
  }

  lemma BagNests(w: WordSize, data: Bytes, off: nat, limit: nat)
    requires BagAt(w, data, off, limit).Hit?
    ensures var h := BagAt(w, data, off, limit); Leads(data, [h.bag, h.value, h.epki], h.e, off, limit)
  {
    hide Child, Tlv, EncryptionAt, IsOid, EncryptionOk;
    var h := BagAt(w, data, off, limit);
    EncryptionNests(w, data, h.epki);
  }

  lemma {:induction false} BagsNest(w: WordSize, data: Bytes, off: nat, limit: nat)
    requires BagsFrom(w, data, off, limit).Match?
    ensures var m := BagsFrom(w, data, off, limit); Leads(data, m.path, m.e, off, limit)
    decreases limit - off
  {
    hide BagAt, Chain, EncryptionOk;
    var scan := BagAt(w, data, off, limit);
    if scan.Hit? { BagNests(w, data, off, limit); } else { BagsNest(w, data, scan.next, limit); }
  }

  lemma ChainJoin(a: seq<TlvView>, b: seq<TlvView>)
    requires a != [] && b != [] && Chain(a) && Chain(b) && In(b[0], a[|a| - 1])
    ensures Chain(a + b)
  {
    var c := a + b;
    forall i | 0 < i < |c| ensures In(c[i], c[i - 1]) {
      if i < |a| {
        assert In(a[i], a[i - 1]);
      } else if i > |a| {
        assert In(b[i - |a|], b[i - |a| - 1]);
      }
    }
  }

  lemma LeadsLonger(data: Bytes, a: seq<TlvView>, b: seq<TlvView>, e: Encryption, from: nat, limit: nat)
    requires a != [] && Chain(a) && from < a[0].start && a[0].next <= limit
    requires Leads(data, b, e, a[|a| - 1].start, a[|a| - 1].next) && b[0].start + b[0].length == b[0].next
    ensures Leads(data, a + b, e, from, limit)
  {
    hide Chain, EncryptionOk;
    ChainJoin(a, b);
  }

  lemma InfoNests(w: WordSize, data: Bytes, off: nat, limit: nat)
    requires InfoAt(w, data, off, limit).Some?
    ensures var i := InfoAt(w, data, off, limit).value; Chain([i.info, i.wrapper, i.octets])
  {
    hide Child, Oid;
  }

  lemma BagIsView(w: WordSize, data: Bytes, off: nat, limit: nat)
    requires BagsFrom(w, data, off, limit).Match?
    ensures var p := BagsFrom(w, data, off, limit).path; p != [] && p[0].start + p[0].length == p[0].next
    decreases limit - off
  {
    hide Tlv, ValueAt, EncryptionAt, IsOid;
    var scan := BagAt(w, data, off, limit);
    if !scan.Hit? { BagIsView(w, data, scan.next, limit); }
  }

  lemma {:induction false} SafesNest(w: WordSize, data: Bytes, off: nat, limit: nat)
    requires SafesFrom(w, data, off, limit).Match?
    ensures var m := SafesFrom(w, data, off, limit);
      Leads(data, m.path, m.e, off, limit) && m.path[0].start + m.path[0].length == m.path[0].next
    decreases limit - off
  {
    hide Child, BagsFrom, EncryptionOk, Leads, Chain;
    var i := InfoAt(w, data, off, limit).value;
    var contents := Child(w, data, i.octets.start, i.octets.next, 0x30).value;
    var v := BagsFrom(w, data, contents.start, contents.next);
    if v.Nothing? {
      SafesNest(w, data, i.info.next, limit);
      var later := SafesFrom(w, data, i.info.next, limit);
      LeadsFrom(data, later.path, later.e, i.info.next, off, limit);
    } else {
      BagsNest(w, data, contents.start, contents.next);
      BagIsView(w, data, contents.start, contents.next);
      InfoNests(w, data, off, limit);
      InfoIsView(w, data, off, limit);
      ContentsNest(i, contents);
      LeadsLonger(data, [i.info, i.wrapper, i.octets, contents], v.path, v.e, off, limit);
    }
  }

  lemma LeadsFrom(data: Bytes, path: seq<TlvView>, e: Encryption, later: nat, from: nat, limit: nat)
    requires Leads(data, path, e, later, limit) && from <= later
    ensures Leads(data, path, e, from, limit)
  {
    hide Chain, EncryptionOk;
  }

  lemma InfoIsView(w: WordSize, data: Bytes, off: nat, limit: nat)
    requires InfoAt(w, data, off, limit).Some?
    ensures var i := InfoAt(w, data, off, limit).value.info; i.start + i.length == i.next
  {
    hide Child, Oid;
  }

  lemma ContentsNest(i: Info, contents: TlvView)
    requires Chain([i.info, i.wrapper, i.octets]) && i.octets.start < contents.start
    requires contents.start + contents.length == contents.next <= i.octets.next
    ensures Chain([i.info, i.wrapper, i.octets, contents])
  {
    hide Chain;
    ChainOfOne(contents);
    ChainJoin([i.info, i.wrapper, i.octets], [contents]);
    assert [i.info, i.wrapper, i.octets] + [contents] == [i.info, i.wrapper, i.octets, contents];
  }

  lemma ChainOfOne(v: TlvView)
    ensures Chain([v])
  {
  }

  lemma OuterNests(w: WordSize, data: Bytes)
    requires OuterAt(w, data).Some?
    ensures var o := OuterAt(w, data).value;
      && Chain(OuterPath(o)) && o.pfx.next <= |data| && 0 < o.pfx.start
  {
    hide Child, InfoAt, Chain;
    var o := OuterAt(w, data).value;
    var version := Child(w, data, o.pfx.start, o.pfx.next, 0x02).value;
    InfoNests(w, data, version.next, o.pfx.next);
    InfoIsView(w, data, version.next, o.pfx.next);
    ContentsNest(o.info, o.safe);
    ChainOfOne(o.pfx);
    ChainJoin([o.pfx], [o.info.info, o.info.wrapper, o.info.octets, o.safe]);
    assert [o.pfx] + [o.info.info, o.info.wrapper, o.info.octets, o.safe] == OuterPath(o);
  }

  /** On every input: the salt, the count, the IV and the ciphertext lie inside every element on the way to them, the IV
      is one block, the ciphertext whole blocks, and the iteration count is positive and fits 32 bits. */
  lemma FoundIsContained(w: WordSize, data: Bytes)
    requires FirstBag(w, data).Some?
    ensures var p := FirstBag(w, data).value; Leads(data, p.path, p.e, 0, |data|) && |p.path| == 12
    ensures var p := FirstBag(w, data).value; EncryptionOk(data, p.e, p.path[11])
    ensures var p := FirstBag(w, data).value; var b := BagOf(data, p.e, p.path[11]);
      |b.iv| == 32 && b.ciphertext != [] && |b.ciphertext| % 32 == 0 && 1 <= b.iterations <= 0xFFFF_FFFF
  {
    hide OuterAt, SafesFrom, Leads, Chain;
    var o := OuterAt(w, data).value;
    var m := SafesFrom(w, data, o.safe.start, o.safe.next);
    OuterNests(w, data);
    SafesNest(w, data, o.safe.start, o.safe.next);
    LeadsLonger(data, OuterPath(o), m.path, m.e, 0, |data|);
    SevenIn(w, data, o.safe.start, o.safe.next);
    LeadsEnds(data, OuterPath(o) + m.path, m.e, 0, |data|);
    CountFits(data, m.e, m.path[6]);
  }

  lemma LeadsEnds(data: Bytes, path: seq<TlvView>, e: Encryption, from: nat, limit: nat)
    requires Leads(data, path, e, from, limit)
    ensures path != [] && EncryptionOk(data, e, path[|path| - 1])
  {
  }

  lemma CountFits(data: Bytes, e: Encryption, epki: TlvView)
    requires EncryptionOk(data, e, epki)
    ensures var b := BagOf(data, e, epki);
      |b.iv| == 32 && b.ciphertext != [] && |b.ciphertext| % 32 == 0 && 1 <= b.iterations <= 0xFFFF_FFFF
  {
    hide BeValue;
    var s := ValueOf(data, e.kdf.count);
    WordLimitIsPower(4);
    BeValueBound(s);
    Pow256Monotone(|s|, 4);
  }

  lemma {:induction false} ThreeIn(w: WordSize, data: Bytes, off: nat, limit: nat)
    requires BagsFrom(w, data, off, limit).Match?
    ensures |BagsFrom(w, data, off, limit).path| == 3
    decreases limit - off
  {
    hide BagAt;
    var scan := BagAt(w, data, off, limit);
    if !scan.Hit? { ThreeIn(w, data, scan.next, limit); }
  }

  lemma {:induction false} SevenIn(w: WordSize, data: Bytes, off: nat, limit: nat)
    requires SafesFrom(w, data, off, limit).Match?
    ensures |SafesFrom(w, data, off, limit).path| == 7
    decreases limit - off
  {
    hide Child, BagsFrom, InfoAt;
    var i := InfoAt(w, data, off, limit).value;
    var contents := Child(w, data, i.octets.start, i.octets.next, 0x30).value;
    if BagsFrom(w, data, contents.start, contents.next).Nothing? {
      SevenIn(w, data, i.info.next, limit);
    } else {
      ThreeIn(w, data, contents.start, contents.next);
    }
  }

  // ---- Everything before the hit was passed over ---------------------------------------------------

  /** A well-formed bag that is not shrouded, or is shrouded under other algorithms. */
  predicate PassedOver(w: WordSize, data: Bytes, off: nat, limit: nat) {
    var bag := Child(w, data, off, limit, 0x30);
    && bag.Some?
    && var id := Tlv(w, data, bag.value.start, bag.value.next);
    && id.Some?
    && (IsOid(data, id.value, SHROUDED) ==>
      && var v := ValueAt(w, data, bag.value, id.value.next);
      v.Some? && EncryptionAt(w, data, v.value.1).None?)
  }

  /** Offsets of elements that follow one another, from a given one on. */
  predicate Follow(w: WordSize, data: Bytes, offs: seq<nat>, limit: nat) {
    && (forall k :: 0 <= k < |offs| ==> offs[k] < limit)
    && (forall k :: 0 < k < |offs| ==> Adjacent(w, data, offs[k - 1], offs[k], limit))
  }

  predicate Adjacent(w: WordSize, data: Bytes, off: nat, next: nat, limit: nat) {
    var v := Child(w, data, off, limit, 0x30);
    v.Some? && v.value.next == next
  }

  lemma SkipIsPassing(w: WordSize, data: Bytes, off: nat, limit: nat)
    ensures PassedOver(w, data, off, limit) <==> BagAt(w, data, off, limit).Skip?
    ensures BagAt(w, data, off, limit).Skip? ==> Adjacent(w, data, off, BagAt(w, data, off, limit).next, limit)
  {
    hide Child, Tlv, ValueAt, EncryptionAt, IsOid;
  }

  lemma FollowCons(w: WordSize, data: Bytes, off: nat, rest: seq<nat>, limit: nat)
    requires off < limit && Follow(w, data, rest, limit) && (rest != [] ==> Adjacent(w, data, off, rest[0], limit))
    ensures Follow(w, data, [off] + rest, limit)
  {
    hide Adjacent;
    var offs := [off] + rest;
    forall k | 0 < k < |offs| ensures Adjacent(w, data, offs[k - 1], offs[k], limit) {
      if k > 1 { assert Adjacent(w, data, rest[k - 2], rest[k - 1], limit); }
    }
  }

  /** The bags up to the hit, on every input: they follow one another, all but the last are passed over, and the last
      is the hit. */
  lemma {:induction false} BagsBeforeHit(w: WordSize, data: Bytes, off: nat, limit: nat) returns (offs: seq<nat>)
    requires BagsFrom(w, data, off, limit).Match?
    ensures offs != [] && offs[0] == off && Follow(w, data, offs, limit)
    ensures forall k :: 0 <= k < |offs| - 1 ==> PassedOver(w, data, offs[k], limit)
    ensures var m, h := BagsFrom(w, data, off, limit), BagAt(w, data, offs[|offs| - 1], limit);
      h.Hit? && m.path == [h.bag, h.value, h.epki] && m.e == h.e
    decreases limit - off
  {
    hide BagAt, PassedOver, Follow, Adjacent;
    var scan := BagAt(w, data, off, limit);
    offs := [off];
    if scan.Hit? {
      OneFollows(w, data, off, limit);
    } else {
      var rest := BagsBeforeHit(w, data, scan.next, limit);
      SkipIsPassing(w, data, off, limit);
      FollowCons(w, data, off, rest, limit);
      offs := [off] + rest;
      forall k | 0 <= k < |offs| - 1 ensures PassedOver(w, data, offs[k], limit) {
        if k > 0 { assert offs[k] == rest[k - 1]; }
      }
    }
  }

  lemma NoneFollows(w: WordSize, data: Bytes, limit: nat)
    ensures Follow(w, data, [], limit)
  {
  }

  lemma OneFollows(w: WordSize, data: Bytes, off: nat, limit: nat)
    requires off < limit
    ensures Follow(w, data, [off], limit)
  {
  }

  /** The last element reaches the limit. */
  predicate Ends(w: WordSize, data: Bytes, off: nat, limit: nat) {
    var v := Child(w, data, off, limit, 0x30);
    v.Some? && v.value.next >= limit
  }

  lemma AdjacentEnds(w: WordSize, data: Bytes, off: nat, next: nat, limit: nat)
    requires Adjacent(w, data, off, next, limit) && next >= limit
    ensures Ends(w, data, off, limit)
  {
    hide Child;
  }

  /** A search that finds nothing has passed over every bag. */
  lemma {:induction false} AllBagsPassed(w: WordSize, data: Bytes, off: nat, limit: nat) returns (offs: seq<nat>)
    requires BagsFrom(w, data, off, limit).Nothing?
    ensures Follow(w, data, offs, limit) && (forall k :: 0 <= k < |offs| ==> PassedOver(w, data, offs[k], limit))
    ensures if offs == [] then off >= limit
      else offs[0] == off && Ends(w, data, offs[|offs| - 1], limit)
    decreases limit - off
  {
    hide BagAt, PassedOver, Follow, Adjacent, Ends;
    offs := [];
    if off >= limit {
      NoneFollows(w, data, limit);
    } else {
      var scan := BagAt(w, data, off, limit);
      var rest := AllBagsPassed(w, data, scan.next, limit);
      SkipIsPassing(w, data, off, limit);
      FollowCons(w, data, off, rest, limit);
      if rest == [] { AdjacentEnds(w, data, off, scan.next, limit); }
      offs := [off] + rest;
      forall k | 0 <= k < |offs| ensures PassedOver(w, data, offs[k], limit) {
        if k > 0 { assert offs[k] == rest[k - 1]; }
      }
    }
  }

  /** The safe at an offset is read, and none of its bags is the one sought. */
  predicate SafePassed(w: WordSize, data: Bytes, off: nat, limit: nat) {
    var i := InfoAt(w, data, off, limit);
    && i.Some?
    && var contents := Child(w, data, i.value.octets.start, i.value.octets.next, 0x30);
    contents.Some? && BagsFrom(w, data, contents.value.start, contents.value.next).Nothing?
  }

  lemma SafeIsAdjacent(w: WordSize, data: Bytes, off: nat, limit: nat)
    requires InfoAt(w, data, off, limit).Some?
    ensures Adjacent(w, data, off, InfoAt(w, data, off, limit).value.info.next, limit)
  {
    hide Child, Oid;
  }

  /** The safes up to the hit, on every input: all but the last are read and passed over, and the last holds the hit. */
  lemma {:induction false} SafesBeforeHit(w: WordSize, data: Bytes, off: nat, limit: nat) returns (offs: seq<nat>)
    requires SafesFrom(w, data, off, limit).Match?
    ensures offs != [] && offs[0] == off && Follow(w, data, offs, limit)
    ensures forall k :: 0 <= k < |offs| - 1 ==> SafePassed(w, data, offs[k], limit)
    ensures var m, i := SafesFrom(w, data, off, limit), InfoAt(w, data, offs[|offs| - 1], limit);
      && i.Some?
      && var contents := Child(w, data, i.value.octets.start, i.value.octets.next, 0x30);
      && contents.Some?
      && var b := BagsFrom(w, data, contents.value.start, contents.value.next);
      b.Match? && m.e == b.e && m.path == [i.value.info, i.value.wrapper, i.value.octets, contents.value] + b.path
    decreases limit - off
  {
    hide InfoAt, Child, BagsFrom, SafePassed, Follow, Adjacent;
    var i := InfoAt(w, data, off, limit).value;
    var contents := Child(w, data, i.octets.start, i.octets.next, 0x30).value;
    OneFollows(w, data, off, limit);
    offs := [off];
    if BagsFrom(w, data, contents.start, contents.next).Nothing? {
      var rest := SafesBeforeHit(w, data, i.info.next, limit);
      SafeIsAdjacent(w, data, off, limit);
      FollowCons(w, data, off, rest, limit);
      NothingIsPassed(w, data, off, limit);
      offs := [off] + rest;
      forall k | 0 <= k < |offs| - 1 ensures SafePassed(w, data, offs[k], limit) {
        if k > 0 { assert offs[k] == rest[k - 1]; }
      }
    }
  }

  lemma NothingIsPassed(w: WordSize, data: Bytes, off: nat, limit: nat)
    requires var i := InfoAt(w, data, off, limit);
      && i.Some?
      && var contents := Child(w, data, i.value.octets.start, i.value.octets.next, 0x30);
      contents.Some? && BagsFrom(w, data, contents.value.start, contents.value.next).Nothing?
    ensures SafePassed(w, data, off, limit)
  {
    hide InfoAt, Child, BagsFrom;
  }

  // ---- The loops --------------------------------------------------------------------------------

  method ParseDataContentInfo(w: WordSize, data: Bytes, off: nat, limit: nat) returns (r: Option<Info>)
    requires |data| < WordLimit(w) && off <= |data|
    ensures r == InfoAt(w, data, off, limit)
  {
    hide Child, Oid, WordLimit;
    r := None;
    var ok, info := FindChild(w, data, off, limit, 0x30);
    if !ok { return; }
    var oid;
    ok, oid := FindOid(w, data, info.start, info.next, DATA);
    if !ok { return; }
    var wrapper;
    ok, wrapper := FindChild(w, data, oid.next, info.next, 0xA0);
    if !ok { return; }
    var octets;
    ok, octets := FindChild(w, data, wrapper.start, wrapper.next, 0x04);
    if !ok { return; }
    r := Some(Info(info, wrapper, octets));
  }

  method ParseBag(w: WordSize, data: Bytes, off: nat, limit: nat) returns (r: Scan)
    requires |data| < WordLimit(w) && off <= |data|
    ensures r == BagAt(w, data, off, limit)
  {
    hide Child, Tlv, IsOid, WordLimit, EncryptionAt;
    var ok, bag := FindChild(w, data, off, limit, 0x30);
    if !ok { return Bad; }
    var id;
    ok, id := ParseTlvAt(w, data, bag.start, bag.next);
    if !ok { return Bad; }
    var shrouded := OidEquals(data, id, SHROUDED);
    if !shrouded { return Skip(bag.next); }
    var value;
    ok, value := FindChild(w, data, id.next, bag.next, 0xA0);
    if !ok { return Bad; }
    var epki;
    ok, epki := FindChild(w, data, value.start, value.next, 0x30);
    if !ok { return Bad; }
    var e := ParseZs2Encryption(w, data, epki);
    r := if e.Some? then Hit(bag, value, epki, e.value) else Skip(bag.next);
  }

  method SearchBags(w: WordSize, data: Bytes, start: nat, limit: nat) returns (r: Verdict)
    requires |data| < WordLimit(w) && start <= |data|
    ensures r == BagsFrom(w, data, start, limit)
  {
    hide BagAt, WordLimit;
    var off := start;
    while off < limit
      invariant off <= |data| && BagsFrom(w, data, off, limit) == BagsFrom(w, data, start, limit)
    {
      var scan := ParseBag(w, data, off, limit);
      match scan
      case Bad => return Malformed;
      case Hit(bag, value, epki, e) => return Match([bag, value, epki], e);
      case Skip(next) => off := next;
    }
    r := Nothing;
  }

  method SearchSafes(w: WordSize, data: Bytes, start: nat, limit: nat) returns (r: Verdict)
    requires |data| < WordLimit(w) && start <= |data|
    ensures r == SafesFrom(w, data, start, limit)
  {
    hide InfoAt, Child, BagsFrom, WordLimit;
    var off := start;
    while off < limit
      invariant off <= |data| && SafesFrom(w, data, off, limit) == SafesFrom(w, data, start, limit)
    {
      var info := ParseDataContentInfo(w, data, off, limit);
      if info.None? { return Malformed; }
      var i := info.value;
      var ok, contents := FindChild(w, data, i.octets.start, i.octets.next, 0x30);
      if !ok { return Malformed; }
      var verdict := SearchBags(w, data, contents.start, contents.next);
      match verdict
      case Malformed => return Malformed;
      case Match(path, e) => return Match([i.info, i.wrapper, i.octets, contents] + path, e);
      case Nothing => off := i.info.next;
    }
    r := Nothing;
  }

  /** The first bag under the Ukrainian algorithms, or nothing. */
  method ParseZs2FirstBag(w: WordSize, data: Bytes) returns (r: Option<Bag>)
    requires |data| < WordLimit(w)
    ensures r.Some? <==> FirstBag(w, data).Some?
    ensures r.Some? ==> var p := FirstBag(w, data).value; |p.path| == 12 && EncryptionOk(data, p.e, p.path[11])
    ensures r.Some? ==> var p := FirstBag(w, data).value; r.value == BagOf(data, p.e, p.path[11])
  {
    hide Child, InfoAt, SafesFrom, WordLimit, EncryptionOk, Leads, OuterPath;
    r := None;
    var ok, pfx := FindChild(w, data, 0, |data|, 0x30);
    if !ok { return; }
    var version;
    ok, version := FindChild(w, data, pfx.start, pfx.next, 0x02);
    if !ok { return; }
    var info := ParseDataContentInfo(w, data, version.next, pfx.next);
    if info.None? { return; }
    var safe;
    ok, safe := FindChild(w, data, info.value.octets.start, info.value.octets.next, 0x30);
    if !ok { return; }
    var verdict := SearchSafes(w, data, safe.start, safe.next);
    if !verdict.Match? { return; }
    hide OuterAt;
    FoundIsContained(w, data);
    var p := Place(OuterPath(Outer(pfx, info.value, safe)) + verdict.path, verdict.e);
    r := Some(BagOf(data, p.e, p.path[11]));
  }
}
