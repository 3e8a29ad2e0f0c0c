/**
 Whatever the keystore reader accepts (src/lib/core/KeyParsers.cpp:610-806) is a keystore as it is written: the file is
 the header, written entries in order, and a trailer that belongs to them; and the entry that comes out is the one that
 the rule names among those entries.
 */
module JksInverse {
  import opened ByteStrings
  import opened Der
  import opened Utf
  import opened JavaUtf
  import opened JksStore
  import opened JksRoundTrip

  lemma {:induction false} BytesOfValue(s: Bytes)
    ensures BeBytes(BeValue(s), |s|) == s && BeValue(s) < Pow256(|s|)
  {
    BeValueBound(s);
    if s != [] {
      BytesOfValue(s[..|s| - 1]);
      assert s == s[..|s| - 1] + [s[|s| - 1]];
    }
  }

  lemma NumberHere(data: Bytes, off: nat, limit: nat, k: nat)
    requires limit <= |data| && NumberAt(data, off, limit, k).Some?
    ensures var n := NumberAt(data, off, limit, k).value;
      At(data, off, BeBytes(n.value, k)) && n.value < Pow256(k) && n.next == off + k <= limit
  {
    hide BeValue, BeBytes, Pow256;
    BytesOfValue(data[off..off + k]);
  }

  lemma BytesHere(data: Bytes, off: nat, limit: nat, n: nat)
    requires limit <= |data| && BytesAt(data, off, limit, n).Some?
    ensures var b := BytesAt(data, off, limit, n).value; At(data, off, b.value) && |b.value| == n && b.next == off + n
  {
  }

  // ---- Strings and certificates -----------------------------------------------------------------

  lemma StringHere(data: Bytes, off: nat, limit: nat) returns (s: seq<Unit>)
    requires limit <= |data| && StringAt(data, off, limit).Some?
    ensures StringOk(s) && Paired(s) && At(data, off, StringText(s))
    ensures StringAt(data, off, limit) == Some(Got(Name(s), off + |StringText(s)|))
  {
    hide At, NumberAt, DecodeModified, EncodeModified, Encode, Paired, BeBytes, Pow256;
    NumberHere(data, off, limit, 2);
    Powers();
    var n := NumberAt(data, off, limit, 2).value;
    var src := data[n.next..n.next + n.value];
    s := DecodeModified(src).value;
    ReadIsWritten(src);
    EncodeAccepts(s);
    SliceIsAt(data, n.next, n.next + n.value);
    AtJoin(data, off, BeBytes(n.value, 2), src);
  }

  lemma SliceIsAt(data: Bytes, a: nat, b: nat)
    requires a <= b <= |data|
    ensures At(data, a, data[a..b])
  {
  }

  lemma CertificateHere(data: Bytes, off: nat, limit: nat, version: nat) returns (c: Certificate)
    requires limit <= |data| && CertificateAt(data, off, limit, version).Some?
    ensures CertificateOk(version, c) && CertificateLegible(version, c) && At(data, off, CertificateText(version, c))
    ensures CertificateAt(data, off, limit, version) == Some(Got(c.der, off + |CertificateText(version, c)|))
  {
    hide At, NumberAt, BytesAt, StringAt, StringText, StringOk, Paired, BeBytes, Pow256;
    var kind: seq<Unit> := [];
    if version == 2 { kind := StringHere(data, off, limit); }
    var text := if version == 2 then StringText(kind) else [];
    var p := off + |text|;
    NumberHere(data, p, limit, 4);
    Powers();
    var n := NumberAt(data, p, limit, 4).value;
    BytesHere(data, p + 4, limit, n.value);
    c := Certificate(kind, BytesAt(data, p + 4, limit, n.value).value.value);
    if version != 2 { NothingAt(data, off); }
    AtJoin(data, off, text, BeBytes(n.value, 4));
    AtJoin(data, off, text + BeBytes(n.value, 4), c.der);
  }

  lemma NothingAt(data: Bytes, off: nat)
    requires off <= |data|
    ensures At(data, off, [])
  {
  }

  lemma {:induction false} ChainHere(data: Bytes, off: nat, limit: nat, version: nat, k: nat)
    returns (chain: seq<Certificate>)
    requires off <= limit <= |data| && ChainTo(data, off, limit, version, k).Some?
    ensures |chain| == k && ChainLegible(version, chain) && At(data, off, ChainText(version, chain))
    ensures forall i :: 0 <= i < k ==> CertificateOk(version, chain[i])
    ensures ChainTo(data, off, limit, version, k) == Some(Got(Ders(chain), off + |ChainText(version, chain)|))
  {
    hide At, CertificateAt, CertificateOk, CertificateText, CertificateLegible;
    if k == 0 {
      chain := [];
      NothingAt(data, off);
    } else {
      var before := ChainHere(data, off, limit, version, k - 1);
      var c := CertificateHere(data, off + |ChainText(version, before)|, limit, version);
      chain := before + [c];
      assert chain[..k - 1] == before;
      AtJoin(data, off, ChainText(version, before), CertificateText(version, c));
      assert Ders(chain) == Ders(before) + [c.der];
    }
  }

  // ---- Entries ----------------------------------------------------------------------------------

  /** The format's own limits. */
  predicate ItemSized(version: nat, e: Item) {
    && StringOk(e.alias) && e.time < 0x1_0000_0000_0000_0000
    && (e.PrivateKey? ==> |e.body| < 0x1_0000_0000 && |e.chain| < 0x1_0000_0000)
    && (e.PrivateKey? ==> forall i :: 0 <= i < |e.chain| ==> CertificateOk(version, e.chain[i]))
    && (e.Trusted? ==> CertificateOk(version, e.certificate))
  }

  lemma KeyHere(data: Bytes, off: nat, limit: nat, version: nat, alias: Bytes)
    returns (body: Bytes, chain: seq<Certificate>)
    requires limit <= |data| && PrivateAt(data, off, limit, version, alias).Some?
    ensures |body| < 0x1_0000_0000 && |chain| < 0x1_0000_0000 && ChainLegible(version, chain)
    ensures forall i :: 0 <= i < |chain| ==> CertificateOk(version, chain[i])
    ensures At(data, off, KeyText(version, body, chain))
    ensures PrivateAt(data, off, limit, version, alias) ==
      Some(Got(PrivateEntry(alias, body, Ders(chain)), off + |KeyText(version, body, chain)|))
  {
    hide At, NumberAt, BytesAt, ChainTo, ChainText, ChainLegible, CertificateOk, BeBytes, Pow256;
    Powers();
    NumberHere(data, off, limit, 4);
    var n := NumberAt(data, off, limit, 4).value.value;
    BytesHere(data, off + 4, limit, n);
    body := BytesAt(data, off + 4, limit, n).value.value;
    var p := off + 4 + n;
    NumberHere(data, p, limit, 4);
    var count := NumberAt(data, p, limit, 4).value.value;
    chain := ChainHere(data, p + 4, limit, version, count);
    AtJoin(data, off, BeBytes(n, 4), body);
    AtJoin(data, off, BeBytes(n, 4) + body, BeBytes(count, 4));
    AtJoin(data, off, BeBytes(n, 4) + body + BeBytes(count, 4), ChainText(version, chain));
  }

  /** Tag, alias and time. */
  lemma HeadHere(data: Bytes, off: nat, limit: nat, version: nat) returns (tag: nat, alias: seq<Unit>, time: nat)
    requires limit <= |data| && EntryAt(data, off, limit, version).Some?
    ensures (tag == 1 || tag == 2) && StringOk(alias) && Paired(alias) && time < 0x1_0000_0000_0000_0000
    ensures At(data, off, Head(tag, alias, time))
    ensures var next := off + |Head(tag, alias, time)|;
      EntryAt(data, off, limit, version) ==
        if tag == 1 then PrivateAt(data, next, limit, version, Name(alias))
        else match CertificateAt(data, next, limit, version)
          case None => None
          case Some(c) => Some(Got(TrustedEntry(Name(alias)), c.next))
  {
    hide At, NumberAt, StringAt, StringText, StringOk, Paired, PrivateAt, CertificateAt, BeBytes, Pow256, Name;
    Powers();
    NumberHere(data, off, limit, 4);
    tag := NumberAt(data, off, limit, 4).value.value;
    alias := StringHere(data, off + 4, limit);
    var p := off + 4 + |StringText(alias)|;
    NumberHere(data, p, limit, 8);
    time := NumberAt(data, p, limit, 8).value.value;
    AtJoin(data, off, BeBytes(tag, 4), StringText(alias));
    AtJoin(data, off, BeBytes(tag, 4) + StringText(alias), BeBytes(time, 8));
  }

  lemma EntryHere(data: Bytes, off: nat, limit: nat, version: nat) returns (e: Item)
    requires limit <= |data| && EntryAt(data, off, limit, version).Some?
    ensures ItemSized(version, e) && ItemLegible(version, e) && At(data, off, ItemText(version, e))
    ensures EntryAt(data, off, limit, version) == Some(Got(View(e), off + |ItemText(version, e)|))
  {
    hide At, EntryAt, StringOk, Paired, PrivateAt, CertificateAt, Head, KeyText, CertificateText, CertificateOk,
         ChainLegible, CertificateLegible, Name;
    var tag, alias, time := HeadHere(data, off, limit, version);
    var head := Head(tag, alias, time);
    if tag == 1 {
      var body, chain := KeyHere(data, off + |head|, limit, version, Name(alias));
      e := PrivateKey(alias, time, body, chain);
      AtJoin(data, off, head, KeyText(version, body, chain));
    } else {
      var c := CertificateHere(data, off + |head|, limit, version);
      e := Trusted(alias, time, c);
      AtJoin(data, off, head, CertificateText(version, c));
    }
  }

  lemma {:induction false} EntriesHere(data: Bytes, off: nat, limit: nat, version: nat, k: nat)
    returns (items: seq<Item>)
    requires off <= limit <= |data| && EntriesTo(data, off, limit, version, k).Some?
    ensures |items| == k && Legible(version, items) && At(data, off, ItemsText(version, items))
    ensures forall i :: 0 <= i < k ==> ItemSized(version, items[i])
    ensures EntriesTo(data, off, limit, version, k) == Some(Got(Views(items), off + |ItemsText(version, items)|))
  {
    hide At, EntryAt, ItemSized, ItemText, ItemLegible, View;
    if k == 0 {
      items := [];
      NothingAt(data, off);
    } else {
      var before := EntriesHere(data, off, limit, version, k - 1);
      var e := EntryHere(data, off + |ItemsText(version, before)|, limit, version);
      items := before + [e];
      assert items[..k - 1] == before;
      AtJoin(data, off, ItemsText(version, before), ItemText(version, e));
      assert Views(items) == Views(before) + [View(e)];
    }
  }

  // ---- The store --------------------------------------------------------------------------------

  lemma HeaderHere(input: Bytes, limit: nat)
    requires 12 <= limit <= |input| && HeaderAt(input, limit).Some?
    ensures var h := HeaderAt(input, limit).value;
      && (h.0 == 1 || h.0 == 2) && h.1 < 0x1_0000_0000 && At(input, 0, HeaderText(h.0, h.1))
      && input[..4] == [0xFE, 0xED, 0xFE, 0xED]
  {
    hide At, NumberAt, BeBytes, Pow256;
    Powers();
    NumberHere(input, 0, limit, 4);
    NumberHere(input, 4, limit, 4);
    NumberHere(input, 8, limit, 4);
    var h := HeaderAt(input, limit).value;
    AtJoin(input, 0, BeBytes(MAGIC, 4), BeBytes(h.0, 4));
    AtJoin(input, 0, BeBytes(MAGIC, 4) + BeBytes(h.0, 4), BeBytes(h.1, 4));
    MagicOctets();
    AtSlice(input, 0, BeBytes(MAGIC, 4));
  }

  lemma MagicOctets()
    ensures BeBytes(MAGIC, 4) == [0xFE, 0xED, 0xFE, 0xED]
  {
    assert BeBytes(0xFE, 1) == [0xFE];
    assert BeBytes(0xFEED, 2) == BeBytes(0xFE, 1) + [0xED];
    assert BeBytes(0xFEEDFE, 3) == BeBytes(0xFEED, 2) + [0xFE];
    assert BeBytes(0xFEEDFEED, 4) == BeBytes(0xFEEDFE, 3) + [0xED];
  }

  lemma BodyIs(input: Bytes, version: nat, items: seq<Item>)
    requires |input| >= 32 && At(input, 0, HeaderText(version, |items|)) && At(input, 12, ItemsText(version, items))
    requires 12 + |ItemsText(version, items)| == |input| - 20
    ensures input[..|input| - 20] == StoreBody(version, items)
  {
    hide HeaderText, ItemsText;
    AtJoin(input, 0, HeaderText(version, |items|), ItemsText(version, items));
  }

  /** The file behind an accepted input, and the entry that the rule names in it. */
  lemma AcceptedIsWritten(input: Bytes, password: Bytes, preferred: Bytes)
    returns (version: nat, items: seq<Item>, i: nat)
    requires Selected(input, password, preferred).Some?
    ensures version == 1 || version == 2
    ensures |items| < 0x1_0000_0000 && forall k :: 0 <= k < |items| ==> ItemSized(version, items[k])
    ensures Legible(version, items) && Chosen(items, Wanted(preferred), i)
    ensures |input| >= 32 && input[..4] == [0xFE, 0xED, 0xFE, 0xED]
    ensures input[..|input| - 20] == StoreBody(version, items)
    ensures Signed(StoreBody(version, items), input[|input| - 20..], password)
    ensures Selected(input, password, preferred) == Some(SelectionOf(items[i]))
  {
    hide HeaderAt, HeaderText, EntriesTo, ItemsText, Intact, Select, Wanted, Chosen, Signed, Legible, ItemSized;
    OpenedIsSigned(input, password, preferred);
    var limit := |input| - 20;
    HeaderHere(input, limit);
    var h := HeaderAt(input, limit).value;
    version := h.0;
    items := EntriesHere(input, 12, limit, version, h.1);
    BodyIs(input, version, items);
    if j: nat :| Chosen(items, Wanted(preferred), j) {
      i := j;
      SelectsChosen(items, Wanted(preferred), i);
    } else {
      NothingChosen(items, Wanted(preferred));
    }
  }
}
