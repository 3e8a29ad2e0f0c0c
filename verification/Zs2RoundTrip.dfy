/**
 Containers as they are written, and the theorem that the walk gives the first key it can take: bags of other kinds and
 shrouded bags with any other octets are passed over, in any number of safes. A safe that is not of type data ends the
 walk, so a key behind one is not found.
 */
module Zs2RoundTrip {
  import opened ByteStrings
  import opened Der
  import opened Zs2
  import opened Zs2Local
  import opened Zs2Keys

  // ---- The format -------------------------------------------------------------------------------

  /** A bag of another kind, or a shrouded key: `key` is whatever stands in its EncryptedPrivateKeyInfo. */
  datatype SafeBag = OtherBag(id: Bytes, rest: Bytes) | Shrouded(key: Bytes, attributes: Bytes)

  /** A safe of type data, or of another type, such as an encrypted one. */
  datatype Safe = DataSafe(bags: seq<SafeBag>) | OtherSafe(oid: Bytes, rest: Bytes)

  /** "Other" means another identifier. */
  predicate BagOk(b: SafeBag) { b.OtherBag? ==> b.id != SHROUDED }

  predicate BagsOk(bags: seq<SafeBag>) { forall i :: 0 <= i < |bags| ==> BagOk(bags[i]) }

  predicate SafeOk(s: Safe) { if s.DataSafe? then BagsOk(s.bags) else s.oid != DATA }

  predicate SafesOk(safes: seq<Safe>) { forall i :: 0 <= i < |safes| ==> SafeOk(safes[i]) }

  function BagText(b: SafeBag): (r: Bytes) {
    if b.OtherBag? then Element(0x30, Element(0x06, b.id) + b.rest)
    else Element(0x30, Element(0x06, SHROUDED) + Element(0xA0, Element(0x30, b.key)) + b.attributes)
  }

  function BagsText(bags: seq<SafeBag>): (r: Bytes) {
    if bags == [] then [] else BagText(bags[0]) + BagsText(bags[1..])
  }

  function ContentText(value: Bytes): (r: Bytes) {
    Element(0x30, Element(0x06, DATA) + Element(0xA0, Element(0x04, value)))
  }

  function SafeText(s: Safe): (r: Bytes) {
    if s.DataSafe? then ContentText(Element(0x30, BagsText(s.bags))) else Element(0x30, Element(0x06, s.oid) + s.rest)
  }

  function SafesText(safes: seq<Safe>): (r: Bytes) {
    if safes == [] then [] else SafeText(safes[0]) + SafesText(safes[1..])
  }

  /** The whole container; `tail` holds the MAC data, if any. */
  function PfxText(version: Bytes, safes: seq<Safe>, tail: Bytes): (r: Bytes) {
    Element(0x30, Element(0x02, version) + ContentText(Element(0x30, SafesText(safes))) + tail)
  }

  // ---- The key that is sought -------------------------------------------------------------------

  /** The first shrouded key of a safe that can be taken. */
  function FirstOf(w: WordSize, bags: seq<SafeBag>): (r: Option<Bag>) {
    if bags == [] then None
    else if bags[0].Shrouded? && Accepted(w, bags[0].key).Some? then Accepted(w, bags[0].key)
    else FirstOf(w, bags[1..])
  }

  function Sought(w: WordSize, s: Safe): (r: Option<Bag>) { if s.DataSafe? then FirstOf(w, s.bags) else None }

  /** The i-th safe holds a key that can be taken, no safe before it does, and the walk gets there. */
  predicate Reached(w: WordSize, safes: seq<Safe>, i: nat) {
    && i < |safes| && Sought(w, safes[i]).Some?
    && forall j :: 0 <= j < i ==> safes[j].DataSafe? && Sought(w, safes[j]).None?
  }

  // ---- Bags -------------------------------------------------------------------------------------

  lemma OtherBagReads(w: WordSize, data: Bytes, off: nat, limit: nat, b: SafeBag)
    requires b.OtherBag? && BagOk(b) && At(data, off, BagText(b))
    requires off + |BagText(b)| <= limit && |data| < WordLimit(w)
    ensures BagAt(w, data, off, limit) == Skip(off + |BagText(b)|)
  {
    hide At, Element, Child, Tlv, EncryptionAt;
    var bag := ChildReads(w, data, off, limit, 0x30, Element(0x06, b.id) + b.rest);
    HeldSplit(data, bag, Element(0x06, b.id), b.rest);
    ElementReads(w, data, bag.start, bag.next, 0x06, b.id);
    ContentHeld(data, Tlv(w, data, bag.start, bag.next).value, b.id);
  }

  /** A shrouded bag, down to the EncryptedPrivateKeyInfo. */
  lemma ShroudedReads(w: WordSize, data: Bytes, off: nat, limit: nat, b: SafeBag)
    returns (bag: TlvView, value: TlvView, epki: TlvView)
    requires b.Shrouded? && At(data, off, BagText(b))
    requires off + |BagText(b)| <= limit && |data| < WordLimit(w)
    ensures bag.next == off + |BagText(b)| && Holds(data, epki, b.key)
    ensures BagAt(w, data, off, limit) ==
      match EncryptionAt(w, data, epki) case None => Skip(bag.next) case Some(e) => Hit(bag, value, epki, e)
  {
    hide At, Element, Child, Tlv, EncryptionAt, Holds;
    var info := Element(0x30, b.key);
    var front := Element(0x06, SHROUDED) + Element(0xA0, info);
    bag := ChildReads(w, data, off, limit, 0x30, front + b.attributes);
    HeldSplit(data, bag, front, b.attributes);
    AtSplit(data, bag.start, Element(0x06, SHROUDED), Element(0xA0, info));
    ElementReads(w, data, bag.start, bag.next, 0x06, SHROUDED);
    var id := Tlv(w, data, bag.start, bag.next).value;
    ContentHeld(data, id, SHROUDED);
    value := ChildReads(w, data, id.next, bag.next, 0xA0, info);
    WholeHeld(data, value, info);
    epki := ChildReads(w, data, value.start, value.next, 0x30, b.key);
  }

  /** The key that a bag gives, if any. */
  function KeyOf(w: WordSize, b: SafeBag): (r: Option<Bag>) { if b.Shrouded? then Accepted(w, b.key) else None }

  lemma BagReads(w: WordSize, data: Bytes, off: nat, limit: nat, b: SafeBag)
    requires BagOk(b) && At(data, off, BagText(b))
    requires off + |BagText(b)| <= limit && |data| < WordLimit(w)
    ensures KeyOf(w, b).None? ==> BagAt(w, data, off, limit) == Skip(off + |BagText(b)|)
    ensures KeyOf(w, b).Some? ==> BagAt(w, data, off, limit).Hit?
    ensures KeyOf(w, b).Some? ==> var h := BagAt(w, data, off, limit);
      EncryptionOk(data, h.e, h.epki) && Some(BagOf(data, h.e, h.epki)) == KeyOf(w, b)
  {
    hide At, Element, BagText, BagAt, EncryptionAt, EncryptionOk, Accepted;
    if b.OtherBag? {
      OtherBagReads(w, data, off, limit, b);
    } else {
      var bag, value, epki := ShroudedReads(w, data, off, limit, b);
      DecisionIsLocal(w, data, epki, b.key);
    }
  }

  /** The search ended in a given key. */
  predicate Yields(data: Bytes, v: Verdict, b: Bag) {
    && v.Match? && v.path != [] && EncryptionOk(data, v.e, v.path[|v.path| - 1])
    && BagOf(data, v.e, v.path[|v.path| - 1]) == b
  }

  lemma {:induction false} BagsRead(w: WordSize, data: Bytes, off: nat, limit: nat, bags: seq<SafeBag>)
    requires BagsOk(bags) && At(data, off, BagsText(bags)) && off + |BagsText(bags)| == limit && |data| < WordLimit(w)
    ensures FirstOf(w, bags).None? ==> BagsFrom(w, data, off, limit).Nothing?
    ensures FirstOf(w, bags).Some? ==> Yields(data, BagsFrom(w, data, off, limit), FirstOf(w, bags).value)
    decreases |bags|
  {
    hide At, BagText, BagOk, BagAt, EncryptionOk, Accepted;
    if bags != [] {
      var b := bags[0];
      AtSplit(data, off, BagText(b), BagsText(bags[1..]));
      BagReads(w, data, off, limit, b);
      TextIsSomething(b);
      if KeyOf(w, b).None? { BagsRead(w, data, off + |BagText(b)|, limit, bags[1..]); }
    }
  }

  lemma TextIsSomething(b: SafeBag)
    ensures |BagText(b)| > 0
  {
    hide Element;
  }

  // ---- Safes ------------------------------------------------------------------------------------

  lemma InfoReads(w: WordSize, data: Bytes, off: nat, limit: nat, value: Bytes) returns (i: Info)
    requires At(data, off, ContentText(value)) && off + |ContentText(value)| <= limit && |data| < WordLimit(w)
    ensures InfoAt(w, data, off, limit) == Some(i) && Holds(data, i.octets, value)
    ensures i.info.next == off + |ContentText(value)|
  {
    hide At, Element, Holds, Child, Oid;
    var inner := Element(0xA0, Element(0x04, value));
    var info := ChildReads(w, data, off, limit, 0x30, Element(0x06, DATA) + inner);
    HeldSplit(data, info, Element(0x06, DATA), inner);
    var oid := OidReads(w, data, info.start, info.next, DATA);
    var wrapper := ChildReads(w, data, oid.next, info.next, 0xA0, Element(0x04, value));
    WholeHeld(data, wrapper, Element(0x04, value));
    var octets := ChildReads(w, data, wrapper.start, wrapper.next, 0x04, value);
    i := Info(info, wrapper, octets);
  }

  /** A safe of another type ends the walk. */
  lemma OtherSafeEnds(w: WordSize, data: Bytes, off: nat, limit: nat, s: Safe)
    requires s.OtherSafe? && SafeOk(s) && At(data, off, SafeText(s))
    requires off + |SafeText(s)| <= limit && |data| < WordLimit(w)
    ensures SafesFrom(w, data, off, limit).Malformed?
  {
    hide At, Element, Child, Oid, BagsFrom;
    var info := ChildReads(w, data, off, limit, 0x30, Element(0x06, s.oid) + s.rest);
    HeldSplit(data, info, Element(0x06, s.oid), s.rest);
    OidRefused(w, data, info.start, info.next, s.oid, DATA);
  }

  lemma SafeStep(w: WordSize, data: Bytes, off: nat, limit: nat, i: Info, contents: TlvView)
    requires off < limit && InfoAt(w, data, off, limit) == Some(i)
    requires Child(w, data, i.octets.start, i.octets.next, 0x30) == Some(contents)
    ensures var v := BagsFrom(w, data, contents.start, contents.next);
      SafesFrom(w, data, off, limit) == match v
        case Malformed => Malformed
        case Nothing => SafesFrom(w, data, i.info.next, limit)
        case Match(path, e) => Match([i.info, i.wrapper, i.octets, contents] + path, e)
  {
    hide InfoAt, Child, BagsFrom;
  }

  lemma YieldsLonger(data: Bytes, path: seq<TlvView>, v: Verdict, b: Bag)
    requires Yields(data, v, b)
    ensures Yields(data, Match(path + v.path, v.e), b)
  {
    hide EncryptionOk;
    var all := path + v.path;
    assert all[|all| - 1] == v.path[|v.path| - 1];
  }

  lemma DataSafeReads(w: WordSize, data: Bytes, off: nat, limit: nat, s: Safe)
    requires s.DataSafe? && SafeOk(s) && At(data, off, SafeText(s))
    requires off + |SafeText(s)| <= limit && |data| < WordLimit(w)
    ensures Sought(w, s).None? ==> SafesFrom(w, data, off, limit) == SafesFrom(w, data, off + |SafeText(s)|, limit)
    ensures Sought(w, s).Some? ==> Yields(data, SafesFrom(w, data, off, limit), Sought(w, s).value)
  {
    hide At, Element, Holds, BagsOk, ContentText, InfoAt, Child, BagsFrom, SafesFrom, BagsText, FirstOf, Yields;
    var inner := Element(0x30, BagsText(s.bags));
    ContentIsSomething(inner);
    var i := InfoReads(w, data, off, limit, inner);
    WholeHeld(data, i.octets, inner);
    var contents := ChildReads(w, data, i.octets.start, i.octets.next, 0x30, BagsText(s.bags));
    WholeHeld(data, contents, BagsText(s.bags));
    BagsRead(w, data, contents.start, contents.next, s.bags);
    SafeStep(w, data, off, limit, i, contents);
    var v := BagsFrom(w, data, contents.start, contents.next);
    if Sought(w, s).Some? {
      YieldsMatch(data, v, Sought(w, s).value);
      YieldsLonger(data, [i.info, i.wrapper, i.octets, contents], v, Sought(w, s).value);
    }
  }

  lemma ContentIsSomething(value: Bytes)
    ensures |ContentText(value)| > 0
  {
    hide Element;
  }

  lemma YieldsMatch(data: Bytes, v: Verdict, b: Bag)
    requires Yields(data, v, b)
    ensures v.Match?
  {
    hide EncryptionOk;
  }

  /** Without a safe to be reached the search does not end in a key. */
  lemma {:induction false} SafesUnread(w: WordSize, data: Bytes, off: nat, limit: nat, safes: seq<Safe>)
    requires SafesOk(safes) && At(data, off, SafesText(safes))
    requires off + |SafesText(safes)| == limit && |data| < WordLimit(w)
    requires forall i :: 0 <= i < |safes| ==> !Reached(w, safes, i)
    ensures !SafesFrom(w, data, off, limit).Match?
    decreases |safes|
  {
    hide At, SafeText, SafesFrom, Sought, SafeOk;
    if safes == [] {
      NoSafes(w, data, limit);
    } else {
      var s, rest := safes[0], safes[1..];
      AtSplit(data, off, SafeText(s), SafesText(rest));
      assert !Reached(w, safes, 0);
      if s.OtherSafe? {
        OtherSafeEnds(w, data, off, limit, s);
      } else {
        DataSafeReads(w, data, off, limit, s);
        forall i | 0 <= i < |rest| ensures !Reached(w, rest, i) { ReachedLater(w, safes, i); }
        SafesUnread(w, data, off + |SafeText(s)|, limit, rest);
      }
    }
  }

  lemma NoSafes(w: WordSize, data: Bytes, limit: nat)
    ensures SafesFrom(w, data, limit, limit).Nothing?
  {
  }

  lemma ReachedLater(w: WordSize, safes: seq<Safe>, i: nat)
    requires safes != [] && safes[0].DataSafe? && Sought(w, safes[0]).None?
    ensures Reached(w, safes[1..], i) <==> Reached(w, safes, i + 1)
  {
    hide Sought;
    if Reached(w, safes[1..], i) {
      forall j | 0 <= j < i + 1 ensures safes[j].DataSafe? && Sought(w, safes[j]).None? {
        if j > 0 { assert safes[j] == safes[1..][j - 1]; }
      }
    }
    if Reached(w, safes, i + 1) {
      forall j | 0 <= j < i ensures safes[1..][j].DataSafe? && Sought(w, safes[1..][j]).None? {
        assert safes[1..][j] == safes[j + 1];
      }
    }
  }

  /** The safe to be reached gives its key. */
  lemma {:induction false} SafesRead(w: WordSize, data: Bytes, off: nat, limit: nat, safes: seq<Safe>, i: nat)
    requires SafesOk(safes) && At(data, off, SafesText(safes))
    requires off + |SafesText(safes)| == limit && |data| < WordLimit(w)
    requires Reached(w, safes, i)
    ensures Yields(data, SafesFrom(w, data, off, limit), Sought(w, safes[i]).value)
    decreases i
  {
    hide At, SafeText, SafesFrom, Sought, SafeOk, Yields;
    var s, rest := safes[0], safes[1..];
    AtSplit(data, off, SafeText(s), SafesText(rest));
    SoughtIsData(w, safes[i]);
    DataSafeReads(w, data, off, limit, s);
    if i > 0 {
      ReachedLater(w, safes, i - 1);
      SafesRead(w, data, off + |SafeText(s)|, limit, rest, i - 1);
    }
  }

  lemma SoughtIsData(w: WordSize, s: Safe)
    requires Sought(w, s).Some?
    ensures s.DataSafe?
  {
    hide FirstOf;
  }

  // ---- The container ----------------------------------------------------------------------------

  lemma OuterReads(w: WordSize, version: Bytes, safes: seq<Safe>, tail: Bytes)
    requires |PfxText(version, safes, tail)| < WordLimit(w)
    ensures var data := PfxText(version, safes, tail);
      OuterAt(w, data).Some? && Holds(data, OuterAt(w, data).value.safe, SafesText(safes))
  {
    hide At, Element, Holds, Child, InfoAt, SafesText, ContentText;
    var data := PfxText(version, safes, tail);
    AtWhole(data);
    var list := Element(0x30, SafesText(safes));
    var front := Element(0x02, version) + ContentText(list);
    var pfx := ChildReads(w, data, 0, |data|, 0x30, front + tail);
    HeldSplit(data, pfx, front, tail);
    AtSplit(data, pfx.start, Element(0x02, version), ContentText(list));
    var number := ChildReads(w, data, pfx.start, pfx.next, 0x02, version);
    var info := InfoReads(w, data, number.next, pfx.next, list);
    WholeHeld(data, info.octets, list);
    var safe := ChildReads(w, data, info.octets.start, info.octets.next, 0x30, SafesText(safes));
  }

  /** The walk through a container gives the first key that can be taken, of the first safe that has one, when only
      safes of type data come before it. */
  lemma FirstBagIsFound(w: WordSize, version: Bytes, safes: seq<Safe>, tail: Bytes, i: nat)
    requires SafesOk(safes) && |PfxText(version, safes, tail)| < WordLimit(w) && Reached(w, safes, i)
    ensures var data := PfxText(version, safes, tail);
      && FirstBag(w, data).Some?
      && var p := FirstBag(w, data).value;
      && |p.path| == 12 && EncryptionOk(data, p.e, p.path[11])
      && BagOf(data, p.e, p.path[11]) == Sought(w, safes[i]).value
  {
    hide At, Holds, OuterAt, SafesFrom, PfxText, Yields, EncryptionOk, Leads, Sought;
    var data := PfxText(version, safes, tail);
    OuterReads(w, version, safes, tail);
    var o := OuterAt(w, data).value;
    WholeHeld(data, o.safe, SafesText(safes));
    SafesRead(w, data, o.safe.start, o.safe.next, safes, i);
    var v := SafesFrom(w, data, o.safe.start, o.safe.next);
    var b := Sought(w, safes[i]).value;
    YieldsMatch(data, v, b);
    FoundIsContained(w, data);
    YieldsLonger(data, OuterPath(o), v, b);
    YieldsBag(data, Match(OuterPath(o) + v.path, v.e), b);
  }

  lemma YieldsBag(data: Bytes, v: Verdict, b: Bag)
    requires Yields(data, v, b)
    ensures v.Match? && v.path != [] && EncryptionOk(data, v.e, v.path[|v.path| - 1])
    ensures BagOf(data, v.e, v.path[|v.path| - 1]) == b
  {
    hide EncryptionOk;
  }

  /** A key is found exactly when some safe has one that can be taken and no safe of another type comes before it. */
  lemma FoundIff(w: WordSize, version: Bytes, safes: seq<Safe>, tail: Bytes)
    requires SafesOk(safes) && |PfxText(version, safes, tail)| < WordLimit(w)
    ensures FirstBag(w, PfxText(version, safes, tail)).Some? <==> exists i :: Reached(w, safes, i)
  {
    hide At, Holds, OuterAt, SafesFrom, PfxText, Reached, EncryptionOk, Sought, SafesOk;
    if i :| Reached(w, safes, i) {
      FirstBagIsFound(w, version, safes, tail, i);
    } else {
      var data := PfxText(version, safes, tail);
      OuterReads(w, version, safes, tail);
      var o := OuterAt(w, data).value;
      WholeHeld(data, o.safe, SafesText(safes));
      SafesUnread(w, data, o.safe.start, o.safe.next, safes);
    }
  }

  /** RFC 7292 allows encrypted safes before the others; behind one, no key is found, whatever the later safes hold. */
  lemma EncryptedSafeHidesKeys(w: WordSize, version: Bytes, first: Safe, later: seq<Safe>, tail: Bytes)
    requires first.OtherSafe? && SafesOk([first] + later) && |PfxText(version, [first] + later, tail)| < WordLimit(w)
    ensures FirstBag(w, PfxText(version, [first] + later, tail)).None?
  {
    hide PfxText, SafesOk, FirstBag, FirstOf;
    var safes := [first] + later;
    assert safes[0] == first;
    forall i: nat ensures !Reached(w, safes, i) {
      if i > 0 { assert !safes[0].DataSafe?; }
    }
    FoundIff(w, version, safes, tail);
  }

  /** Such a container: an encrypted safe first, then a safe whose only bag holds a key that can be taken. */
  lemma HiddenKey(w: WordSize, key: Bytes, version: Bytes, tail: Bytes)
    requires Accepted(w, key).Some?
    requires |PfxText(version, [OtherSafe(ENCRYPTED_DATA, []), DataSafe([Shrouded(key, [])])], tail)| < WordLimit(w)
    ensures Sought(w, DataSafe([Shrouded(key, [])])).Some?
    ensures FirstBag(w, PfxText(version, [OtherSafe(ENCRYPTED_DATA, []), DataSafe([Shrouded(key, [])])], tail)).None?
    ensures |PfxText(version, [DataSafe([Shrouded(key, [])])], tail)| < WordLimit(w) ==>
      FirstBag(w, PfxText(version, [DataSafe([Shrouded(key, [])])], tail)).Some?
  {
    hide Accepted, FirstBag, PfxText;
    var first, second := OtherSafe(ENCRYPTED_DATA, []), DataSafe([Shrouded(key, [])]);
    assert second.bags[0] == Shrouded(key, []);
    assert [first, second] == [first] + [second];
    EncryptedSafeHidesKeys(w, version, first, [second], tail);
    if |PfxText(version, [second], tail)| < WordLimit(w) {
      assert Reached(w, [second], 0);
      FoundIff(w, version, [second], tail);
    }
  }

  /** The content type encryptedData of section 14 of RFC 2315. */
  const ENCRYPTED_DATA: Bytes := [0x2A, 0x86, 0x48, 0x86, 0xF7, 0x0D, 0x01, 0x07, 0x06]
}
