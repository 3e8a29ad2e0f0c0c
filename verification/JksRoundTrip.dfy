/**
 Keystores as they are written, in both layouts, and the theorem that reading one back gives the entry that was asked
 for: the first private key when no alias is asked for, and the last one with an equal normalised alias otherwise.
 */
module JksRoundTrip {
  import opened ByteStrings
  import opened Der
  import opened Sha1
  import opened Utf
  import opened JavaUtf
  import opened JksAlias
  import opened JksProtector
  import opened JksStore

  // ---- The format -------------------------------------------------------------------------------

  datatype Certificate = Certificate(kind: seq<Unit>, der: Bytes)

  /** An entry; strings are UTF-16, as Java has them, and `body` is the protected key. */
  datatype Item =
    | PrivateKey(alias: seq<Unit>, time: nat, body: Bytes, chain: seq<Certificate>)
    | Trusted(alias: seq<Unit>, time: nat, certificate: Certificate)

  predicate StringOk(s: seq<Unit>) { |EncodeModified(s)| < 0x1_0000 }

  /** The format's own limits; the type of a certificate is written from version 2 on. */
  predicate CertificateOk(version: nat, c: Certificate) {
    (version == 2 ==> StringOk(c.kind)) && |c.der| < 0x1_0000_0000
  }

  /** In layout 1 an empty certificate takes four octets only, and the reader's guard on the count could refuse some. */
  predicate ChainOk(version: nat, chain: seq<Certificate>) {
    && |chain| < 0x1_0000_0000 && (forall i :: 0 <= i < |chain| ==> CertificateOk(version, chain[i]))
    && (version != 2 ==> forall i :: 0 <= i < |chain| ==> chain[i].der != [])
  }

  predicate ItemOk(version: nat, e: Item) {
    && StringOk(e.alias) && e.time < 0x1_0000_0000_0000_0000
    && (e.PrivateKey? ==> |e.body| < 0x1_0000_0000 && ChainOk(version, e.chain))
    && (e.Trusted? ==> CertificateOk(version, e.certificate))
  }

  predicate ItemsOk(version: nat, items: seq<Item>) {
    |items| < 0x1_0000_0000 && forall i :: 0 <= i < |items| ==> ItemOk(version, items[i])
  }

  /** Java writes any string; the reader takes only those without unpaired surrogates. */
  ghost predicate CertificateLegible(version: nat, c: Certificate) { version == 2 ==> Paired(c.kind) }

  ghost predicate ChainLegible(version: nat, chain: seq<Certificate>) {
    forall i :: 0 <= i < |chain| ==> CertificateLegible(version, chain[i])
  }

  ghost predicate ItemLegible(version: nat, e: Item) {
    && Paired(e.alias)
    && (e.PrivateKey? ==> ChainLegible(version, e.chain)) && (e.Trusted? ==> CertificateLegible(version, e.certificate))
  }

  ghost predicate Legible(version: nat, items: seq<Item>) {
    forall i :: 0 <= i < |items| ==> ItemLegible(version, items[i])
  }

  function StringText(s: seq<Unit>): (r: Bytes) { BeBytes(|EncodeModified(s)|, 2) + EncodeModified(s) }

  function CertificateText(version: nat, c: Certificate): (r: Bytes) {
    (if version == 2 then StringText(c.kind) else []) + BeBytes(|c.der|, 4) + c.der
  }

  function ChainText(version: nat, chain: seq<Certificate>): (r: Bytes) {
    if chain == [] then []
    else ChainText(version, chain[..|chain| - 1]) + CertificateText(version, chain[|chain| - 1])
  }

  function Head(tag: nat, alias: seq<Unit>, time: nat): (r: Bytes) {
    BeBytes(tag, 4) + StringText(alias) + BeBytes(time, 8)
  }

  function KeyText(version: nat, body: Bytes, chain: seq<Certificate>): (r: Bytes) {
    BeBytes(|body|, 4) + body + BeBytes(|chain|, 4) + ChainText(version, chain)
  }

  function ItemText(version: nat, e: Item): (r: Bytes) {
    match e
    case PrivateKey(alias, time, body, chain) => Head(1, alias, time) + KeyText(version, body, chain)
    case Trusted(alias, time, c) => Head(2, alias, time) + CertificateText(version, c)
  }

  function ItemsText(version: nat, items: seq<Item>): (r: Bytes) {
    if items == [] then [] else ItemsText(version, items[..|items| - 1]) + ItemText(version, items[|items| - 1])
  }

  function HeaderText(version: nat, count: nat): (r: Bytes)
    ensures |r| == 12
  {
    BeBytes(MAGIC, 4) + BeBytes(version, 4) + BeBytes(count, 4)
  }

  function StoreBody(version: nat, items: seq<Item>): (r: Bytes) {
    HeaderText(version, |items|) + ItemsText(version, items)
  }

  /** The whole file. */
  function StoreText(version: nat, items: seq<Item>, password: Bytes): (r: Bytes)
    requires PasswordBytes(password).Some?
  {
    var body := StoreBody(version, items);
    body + Digest(PasswordBytes(password).value + WHITENER + body)
  }

  // ---- Reading the parts back -------------------------------------------------------------------

  lemma Powers()
    ensures Pow256(2) == 0x1_0000 && Pow256(4) == 0x1_0000_0000 && Pow256(8) == 0x1_0000_0000_0000_0000
  {
    WordLimitIsPower(4);
    WordLimitIsPower(8);
    assert Pow256(2) == 256 * (256 * Pow256(0));
  }

  lemma NumberReads(data: Bytes, off: nat, limit: nat, n: nat, k: nat)
    requires At(data, off, BeBytes(n, k)) && off + k <= limit <= |data| && n < Pow256(k)
    ensures NumberAt(data, off, limit, k) == Some(Got(n, off + k))
  {
    hide Pow256;
    BeRoundTrip(n, k);
  }

  lemma BytesRead(data: Bytes, off: nat, limit: nat, s: Bytes)
    requires At(data, off, s) && off + |s| <= limit <= |data|
    ensures BytesAt(data, off, limit, |s|) == Some(Got(s, off + |s|))
  {
  }

  /** An alias in UTF-8. */
  function Name(alias: seq<Unit>): (r: Bytes) { if Encode(alias).Some? then Encode(alias).value else [] }

  /** A written string is read back exactly when its surrogates are paired; otherwise the read fails. */
  lemma StringReads(data: Bytes, off: nat, limit: nat, s: seq<Unit>)
    requires StringOk(s) && At(data, off, StringText(s)) && off + |StringText(s)| <= limit <= |data|
    ensures StringAt(data, off, limit) == if Paired(s) then Some(Got(Name(s), off + |StringText(s)|)) else None
  {
    hide At, NumberAt, Encode, DecodeModified, EncodeModified, Paired;
    var e := EncodeModified(s);
    AtSplit(data, off, BeBytes(|e|, 2), e);
    Powers();
    hide Pow256, BeBytes;
    NumberReads(data, off, limit, |e|, 2);
    AtSlice(data, off + 2, e);
    WrittenIsRead(s);
    EncodeAccepts(s);
  }

  lemma CertificateReads(data: Bytes, off: nat, limit: nat, version: nat, c: Certificate)
    requires CertificateOk(version, c) && At(data, off, CertificateText(version, c))
    requires off + |CertificateText(version, c)| <= limit <= |data|
    ensures CertificateAt(data, off, limit, version) ==
      if CertificateLegible(version, c) then Some(Got(c.der, off + |CertificateText(version, c)|)) else None
  {
    hide At, NumberAt, BytesAt, StringAt, StringText, StringOk, Paired, Name;
    var kind := if version == 2 then StringText(c.kind) else [];
    AtSplit3(data, off, kind, BeBytes(|c.der|, 4), c.der);
    Powers();
    hide Pow256;
    if version == 2 { StringReads(data, off, limit, c.kind); }
    NumberReads(data, off + |kind|, limit, |c.der|, 4);
    BytesRead(data, off + |kind| + 4, limit, c.der);
  }

  function Ders(chain: seq<Certificate>): (r: seq<Bytes>)
    ensures |r| == |chain|
  {
    seq(|chain|, i requires 0 <= i < |chain| => chain[i].der)
  }

  /** The certificate of the key itself comes first. */
  function FirstDer(chain: seq<Certificate>): (r: Bytes) { if |chain| == 0 then [] else chain[0].der }

  lemma {:induction false} ChainReads(data: Bytes, off: nat, limit: nat, version: nat, chain: seq<Certificate>)
    requires ChainOk(version, chain) && ChainLegible(version, chain) && At(data, off, ChainText(version, chain))
    requires off + |ChainText(version, chain)| <= limit <= |data|
    ensures ChainTo(data, off, limit, version, |chain|) == Some(Got(Ders(chain), off + |ChainText(version, chain)|))
    decreases |chain|
  {
    hide At, CertificateAt, CertificateOk, CertificateText, CertificateLegible;
    if chain != [] {
      var n := |chain| - 1;
      var before, last := chain[..n], chain[n];
      AtSplit(data, off, ChainText(version, before), CertificateText(version, last));
      ChainReads(data, off, limit, version, before);
      CertificateReads(data, off + |ChainText(version, before)|, limit, version, last);
      assert Ders(chain) == Ders(before) + [last.der];
    }
  }

  /** One certificate whose type cannot be read stops the chain. */
  lemma ChainUnread(data: Bytes, off: nat, limit: nat, version: nat, chain: seq<Certificate>)
    requires ChainOk(version, chain) && !ChainLegible(version, chain) && At(data, off, ChainText(version, chain))
    requires off + |ChainText(version, chain)| <= limit <= |data|
    ensures ChainTo(data, off, limit, version, |chain|) == None
    decreases |chain|
  {
    hide At, CertificateAt, CertificateOk, CertificateText, CertificateLegible;
    var n := |chain| - 1;
    var before, last := chain[..n], chain[n];
    AtSplit(data, off, ChainText(version, before), CertificateText(version, last));
    if ChainLegible(version, before) {
      ChainReads(data, off, limit, version, before);
      CertificateReads(data, off + |ChainText(version, before)|, limit, version, last);
    } else {
      ChainUnread(data, off, limit, version, before);
    }
  }

  /** The guard on the certificate count refuses no chain in layout 2, and in layout 1 none of non-empty ones. */
  lemma {:induction false} ChainIsLong(version: nat, chain: seq<Certificate>)
    requires ChainOk(version, chain)
    ensures |ChainText(version, chain)| >= 5 * |chain|
    decreases |chain|
  {
    hide EncodeModified, BeBytes, StringOk;
    if chain != [] { ChainIsLong(version, chain[..|chain| - 1]); }
  }

  lemma CountIsFine(version: nat, chain: seq<Certificate>, off: nat, limit: nat)
    requires ChainOk(version, chain) && off + |ChainText(version, chain)| <= limit
    ensures CountFits(|chain|, off, limit)
  {
    hide ChainText;
    ChainIsLong(version, chain);
  }

  /** A count of certificates for which five octets each are not left is refused. */
  lemma CountIsRefused(data: Bytes, off: nat, limit: nat, version: nat, alias: Bytes, body: Bytes, count: nat)
    requires At(data, off, BeBytes(|body|, 4) + body + BeBytes(count, 4)) && limit <= |data|
    requires |body| < 0x1_0000_0000 && count < 0x1_0000_0000 && off + 8 + |body| <= limit
    requires 5 * count > limit - (off + 8 + |body|)
    ensures PrivateAt(data, off, limit, version, alias) == None
  {
    hide At, NumberAt, BytesAt, ChainTo, BeBytes;
    AtSplit3(data, off, BeBytes(|body|, 4), body, BeBytes(count, 4));
    Powers();
    hide Pow256;
    NumberReads(data, off, limit, |body|, 4);
    BytesRead(data, off + 4, limit, body);
    NumberReads(data, off + 4 + |body|, limit, count, 4);
  }

  lemma KeyReads(data: Bytes, off: nat, limit: nat, version: nat, alias: Bytes, body: Bytes, chain: seq<Certificate>)
    requires |body| < 0x1_0000_0000 && ChainOk(version, chain) && At(data, off, KeyText(version, body, chain))
    requires off + |KeyText(version, body, chain)| <= limit <= |data|
    ensures PrivateAt(data, off, limit, version, alias) ==
      if ChainLegible(version, chain)
      then Some(Got(PrivateEntry(alias, body, Ders(chain)), off + |KeyText(version, body, chain)|)) else None
  {
    hide At, NumberAt, BytesAt, ChainTo, ChainText, ChainLegible;
    AtSplit4(data, off, BeBytes(|body|, 4), body, BeBytes(|chain|, 4), ChainText(version, chain));
    Powers();
    hide Pow256, ChainOk;
    NumberReads(data, off, limit, |body|, 4);
    BytesRead(data, off + 4, limit, body);
    var p := off + 4 + |body|;
    ChainCount(version, chain);
    NumberReads(data, p, limit, |chain|, 4);
    CountIsFine(version, chain, p + 4, limit);
    if ChainLegible(version, chain) {
      ChainReads(data, p + 4, limit, version, chain);
    } else {
      ChainUnread(data, p + 4, limit, version, chain);
    }
  }

  lemma ChainCount(version: nat, chain: seq<Certificate>)
    requires ChainOk(version, chain)
    ensures |chain| < 0x1_0000_0000
  {
  }

  /** What the reader makes of an item. */
  function View(e: Item): (r: Entry) {
    match e
    case PrivateKey(alias, _, body, chain) => PrivateEntry(Name(alias), body, Ders(chain))
    case Trusted(alias, _, _) => TrustedEntry(Name(alias))
  }

  lemma HeadReads(data: Bytes, off: nat, limit: nat, tag: nat, alias: seq<Unit>, time: nat)
    requires tag < 256 && StringOk(alias) && time < 0x1_0000_0000_0000_0000
    requires At(data, off, Head(tag, alias, time)) && off + |Head(tag, alias, time)| <= limit <= |data|
    ensures NumberAt(data, off, limit, 4) == Some(Got(tag, off + 4))
    ensures StringAt(data, off + 4, limit) ==
      if Paired(alias) then Some(Got(Name(alias), off + 4 + |StringText(alias)|)) else None
    ensures NumberAt(data, off + 4 + |StringText(alias)|, limit, 8) == Some(Got(time, off + |Head(tag, alias, time)|))
  {
    hide At, NumberAt, StringAt, StringText, StringOk, Paired, Name;
    AtSplit3(data, off, BeBytes(tag, 4), StringText(alias), BeBytes(time, 8));
    Powers();
    hide Pow256;
    NumberReads(data, off, limit, tag, 4);
    StringReads(data, off + 4, limit, alias);
    NumberReads(data, off + 4 + |StringText(alias)|, limit, time, 8);
  }

  /** A written entry is read back exactly when its strings are legible; otherwise the read fails. */
  lemma ItemReads(data: Bytes, off: nat, limit: nat, version: nat, e: Item)
    requires ItemOk(version, e)
    requires At(data, off, ItemText(version, e)) && off + |ItemText(version, e)| <= limit <= |data|
    ensures EntryAt(data, off, limit, version) ==
      if ItemLegible(version, e) then Some(Got(View(e), off + |ItemText(version, e)|)) else None
  {
    hide At, NumberAt, StringAt, StringText, Head, KeyText, CertificateText, PrivateAt, CertificateAt, ChainOk,
         CertificateOk, Paired, Name, ChainLegible, CertificateLegible;
    var tag := if e.PrivateKey? then 1 else 2;
    var head := Head(tag, e.alias, e.time);
    var rest := if e.PrivateKey? then KeyText(version, e.body, e.chain) else CertificateText(version, e.certificate);
    AtSplit(data, off, head, rest);
    HeadReads(data, off, limit, tag, e.alias, e.time);
    if e.PrivateKey? {
      KeyReads(data, off + |head|, limit, version, Name(e.alias), e.body, e.chain);
    } else {
      CertificateReads(data, off + |head|, limit, version, e.certificate);
    }
  }

  function Views(items: seq<Item>): (r: seq<Entry>)
    ensures |r| == |items|
  {
    seq(|items|, i requires 0 <= i < |items| => View(items[i]))
  }

  lemma EntriesGrow(data: Bytes, off: nat, limit: nat, version: nat, k: nat, before: Got<seq<Entry>>, e: Got<Entry>)
    requires off <= limit <= |data| && EntriesTo(data, off, limit, version, k) == Some(before)
    requires EntryAt(data, before.next, limit, version) == Some(e)
    ensures EntriesTo(data, off, limit, version, k + 1) == Some(Got(before.value + [e.value], e.next))
  {
    hide EntryAt;
  }

  lemma {:induction false} ItemsRead(data: Bytes, off: nat, limit: nat, version: nat, items: seq<Item>)
    requires ItemsOk(version, items) && Legible(version, items) && At(data, off, ItemsText(version, items))
    requires off + |ItemsText(version, items)| <= limit <= |data|
    ensures EntriesTo(data, off, limit, version, |items|) == Some(Got(Views(items), off + |ItemsText(version, items)|))
    decreases |items|
  {
    hide At, EntryAt, ItemOk, ItemText, View, ItemLegible;
    if items != [] {
      var n := |items| - 1;
      var before, last := items[..n], items[n];
      AtSplit(data, off, ItemsText(version, before), ItemText(version, last));
      ItemsRead(data, off, limit, version, before);
      var p := off + |ItemsText(version, before)|;
      ItemReads(data, p, limit, version, last);
      hide EntriesTo;
      EntriesGrow(data, off, limit, version, n, Got(Views(before), p), Got(View(last), p + |ItemText(version, last)|));
      assert Views(items) == Views(before) + [View(last)];
    }
  }

  /** One entry that cannot be read stops the whole store. */
  lemma {:induction false} ItemsUnread(data: Bytes, off: nat, limit: nat, version: nat, items: seq<Item>)
    requires ItemsOk(version, items) && !Legible(version, items) && At(data, off, ItemsText(version, items))
    requires off + |ItemsText(version, items)| <= limit <= |data|
    ensures EntriesTo(data, off, limit, version, |items|) == None
    decreases |items|
  {
    hide At, EntryAt, ItemOk, ItemText, View, ItemLegible, EntriesTo;
    var n := |items| - 1;
    var before, last := items[..n], items[n];
    AtSplit(data, off, ItemsText(version, before), ItemText(version, last));
    if Legible(version, before) {
      ItemsRead(data, off, limit, version, before);
      var p := off + |ItemsText(version, before)|;
      ItemReads(data, p, limit, version, last);
      EntriesStop(data, off, limit, version, n, Got(Views(before), p));
    } else {
      ItemsUnread(data, off, limit, version, before);
      EntriesFail(data, off, limit, version, n, n + 1);
    }
  }

  lemma EntriesStop(data: Bytes, off: nat, limit: nat, version: nat, k: nat, before: Got<seq<Entry>>)
    requires off <= limit <= |data| && EntriesTo(data, off, limit, version, k) == Some(before)
    requires EntryAt(data, before.next, limit, version) == None
    ensures EntriesTo(data, off, limit, version, k + 1) == None
  {
    hide EntryAt;
  }

  // ---- The choice -------------------------------------------------------------------------------

  predicate Asked(e: Item, wanted: Bytes) { e.PrivateKey? && (wanted == [] || Normalize(Name(e.alias)) == wanted) }

  /** A private key is asked for by any alias that differs from its own in the case of letters only. */
  lemma AskedMeans(e: Item, preferred: Bytes)
    requires e.PrivateKey? && Paired(e.alias) && preferred != [] && Decode(preferred).Some?
    ensures Asked(e, Wanted(preferred)) <==> SameLetters(Decode(preferred).value, e.alias)
  {
    hide Decode, Encode, Paired, Normalize, SameLetters;
    EncodeAccepts(e.alias);
    EncodeThenDecode(e.alias);
    NormalizeKeepsSomething(preferred);
    SameAliasIff(preferred, Name(e.alias));
    SameLettersTurns(Decode(preferred).value, e.alias);
  }

  lemma SameLettersTurns(a: seq<Unit>, b: seq<Unit>)
    ensures SameLetters(a, b) <==> SameLetters(b, a)
  {
    hide CasePair;
  }

  /** `i` is the entry to return: the first private key that is not empty when no alias is wanted, the last that matches
      otherwise, unless that one is empty. */
  predicate Chosen(items: seq<Item>, wanted: Bytes, i: nat) {
    && i < |items| && Asked(items[i], wanted) && items[i].body != []
    && (wanted == [] ==> forall j :: 0 <= j < i && items[j].PrivateKey? ==> items[j].body == [])
    && (wanted != [] ==> forall j :: i < j < |items| ==> !Asked(items[j], wanted))
  }

  function SelectionOf(e: Item): (r: Selection)
    requires e.PrivateKey?
  {
    Selection(true, true, Name(e.alias), e.body, Ders(e.chain))
  }

  lemma SelectView(items: seq<Item>, wanted: Bytes)
    requires items != []
    ensures var n := |items| - 1;
      Select(Views(items), wanted) == Pick(Select(Views(items[..n]), wanted), View(items[n]), wanted)
  {
    hide Pick, View;
    var n := |items| - 1;
    assert Views(items)[..n] == Views(items[..n]);
  }

  /** No private key that was asked for: nothing is selected. */
  lemma {:induction false} SelectsNothing(items: seq<Item>, wanted: Bytes)
    requires forall i :: 0 <= i < |items| ==> !Asked(items[i], wanted)
    ensures var sel := Select(Views(items), wanted); !sel.found && sel.body == []
    ensures (forall i :: 0 <= i < |items| ==> !items[i].PrivateKey?) ==> !Select(Views(items), wanted).anyPrivate
    decreases |items|
  {
    hide Normalize, Name, Select;
    if items == [] {
      NothingSelected(wanted);
      assert Views(items) == [];
    } else {
      SelectsNothing(items[..|items| - 1], wanted);
      SelectView(items, wanted);
    }
  }

  /** Without an alias, private keys with empty bodies are passed over. */
  lemma {:induction false} EmptyPassed(items: seq<Item>)
    requires forall i :: 0 <= i < |items| && items[i].PrivateKey? ==> items[i].body == []
    ensures Select(Views(items), []).body == []
    decreases |items|
  {
    hide Name, Select, Ders;
    if items == [] {
      NothingSelected([]);
      assert Views(items) == [];
    } else {
      EmptyPassed(items[..|items| - 1]);
      SelectView(items, []);
    }
  }

  /** Once the choice is made, the entries after it leave it alone. */
  lemma {:induction false} SelectsChosen(items: seq<Item>, wanted: Bytes, i: nat)
    requires Chosen(items, wanted, i)
    ensures Select(Views(items), wanted) == SelectionOf(items[i])
    decreases |items|
  {
    hide Normalize, Name, Select, Ders;
    var n := |items| - 1;
    SelectView(items, wanted);
    if i == n {
      if wanted == [] { EmptyPassed(items[..n]); }
    } else {
      assert Chosen(items[..n], wanted, i);
      SelectsChosen(items[..n], wanted, i);
    }
  }

  /** No entry to return: no key is selected. */
  lemma {:induction false} NothingChosen(items: seq<Item>, wanted: Bytes)
    requires forall i: nat :: !Chosen(items, wanted, i)
    ensures Select(Views(items), wanted).body == []
    decreases |items|
  {
    hide Normalize, Name, Select, Ders;
    if items == [] {
      NothingSelected(wanted);
      assert Views(items) == [];
    } else if wanted == [] {
      forall i | 0 <= i < |items| && items[i].PrivateKey? ensures items[i].body == [] { BodyIsEmpty(items, i); }
      EmptyPassed(items);
    } else {
      var n := |items| - 1;
      SelectView(items, wanted);
      if !Asked(items[n], wanted) {
        forall i: nat ensures !Chosen(items[..n], wanted, i) { StaysChosen(items, wanted, i); }
        NothingChosen(items[..n], wanted);
      } else {
        assert !Chosen(items, wanted, n);
      }
    }
  }

  lemma StaysChosen(items: seq<Item>, wanted: Bytes, i: nat)
    requires items != [] && wanted != [] && !Asked(items[|items| - 1], wanted)
    ensures Chosen(items[..|items| - 1], wanted, i) ==> Chosen(items, wanted, i)
  {
    hide Normalize, Name;
  }

  lemma {:induction false} BodyIsEmpty(items: seq<Item>, i: nat)
    requires (forall j: nat :: !Chosen(items, [], j)) && i < |items| && items[i].PrivateKey?
    ensures items[i].body == []
  {
    hide Normalize, Name;
    forall j | 0 <= j < i && items[j].PrivateKey? ensures items[j].body == [] { BodyIsEmpty(items, j); }
    assert !Chosen(items, [], i);
  }

  // ---- The whole store --------------------------------------------------------------------------

  /** Only layouts 1 and 2 are read. */
  lemma HeaderReads(input: Bytes, limit: nat, version: nat, count: nat)
    requires At(input, 0, HeaderText(version, count)) && 12 <= limit <= |input|
    requires version < 0x1_0000_0000 && count < 0x1_0000_0000
    ensures HeaderAt(input, limit) == if version == 1 || version == 2 then Some((version, count)) else None
  {
    hide At, NumberAt, BeBytes;
    AtSplit3(input, 0, BeBytes(MAGIC, 4), BeBytes(version, 4), BeBytes(count, 4));
    Powers();
    hide Pow256;
    NumberReads(input, 0, limit, MAGIC, 4);
    NumberReads(input, 4, limit, version, 4);
    NumberReads(input, 8, limit, count, 4);
  }

  /** The trailer belongs to the body under this password, which is not asked about when it is empty. */
  predicate Signed(body: Bytes, trailer: Bytes, password: Bytes) {
    password == [] || SignedBy(body, trailer, password)
  }

  lemma IntactIsSigned(body: Bytes, trailer: Bytes, password: Bytes)
    requires |trailer| == 20
    ensures Intact(body + trailer, |body|, password) <==> Signed(body, trailer, password)
  {
    hide PasswordBytes, Digest;
    assert (body + trailer)[..|body|] == body;
    assert (body + trailer)[|body|..|body| + DIGEST] == trailer;
  }

  lemma StoreParts(version: nat, items: seq<Item>, trailer: Bytes)
    requires |trailer| == 20
    ensures var input := StoreBody(version, items) + trailer;
      && |StoreBody(version, items)| == 12 + |ItemsText(version, items)|
      && |input| == |StoreBody(version, items)| + DIGEST
      && At(input, 0, HeaderText(version, |items|)) && At(input, 12, ItemsText(version, items))
  {
    hide HeaderText, ItemsText;
    var head, rest := HeaderText(version, |items|), ItemsText(version, items);
    AtMiddle([], head, rest + trailer);
    assert [] + head + (rest + trailer) == head + rest + trailer;
    AtMiddle(head, rest, trailer);
  }

  /** A stored key is selected when it is the one asked for, from a store whose trailer belongs to it. */
  lemma StoreSelects(version: nat, items: seq<Item>, trailer: Bytes, password: Bytes, preferred: Bytes, i: nat)
    requires version == 1 || version == 2
    requires ItemsOk(version, items) && Legible(version, items) && Chosen(items, Wanted(preferred), i)
    requires |trailer| == 20 && Signed(StoreBody(version, items), trailer, password)
    ensures Selected(StoreBody(version, items) + trailer, password, preferred) == Some(SelectionOf(items[i]))
  {
    hide HeaderAt, EntriesTo, Intact, Select, Wanted, Chosen, At, HeaderText, ItemsText, Legible, Signed;
    var body := StoreBody(version, items);
    var input := body + trailer;
    IntactIsSigned(body, trailer, password);
    StoreParts(version, items, trailer);
    CountFitsFormat(version, items);
    HeaderReads(input, |body|, version, |items|);
    ItemsRead(input, 12, |body|, version, items);
    SelectsChosen(items, Wanted(preferred), i);
    ChosenHasBody(items, Wanted(preferred), i);
  }

  lemma CountFitsFormat(version: nat, items: seq<Item>)
    requires ItemsOk(version, items)
    ensures |items| < 0x1_0000_0000
  {
    hide ItemOk;
  }

  lemma BodyFits(version: nat, items: seq<Item>, i: nat)
    requires ItemsOk(version, items) && i < |items| && items[i].PrivateKey?
    ensures |items[i].body| < 0x1_0000_0000
  {
    hide StringOk, ChainOk, CertificateOk;
  }

  lemma ChosenHasBody(items: seq<Item>, wanted: Bytes, i: nat)
    requires Chosen(items, wanted, i)
    ensures items[i].PrivateKey? && items[i].body != []
  {
    hide Normalize;
  }

  /** Both layouts, any aliases, times, certificates and other entries: the key asked for comes back, with its alias
      and its chain, when its body was made by the protector under the password given. */
  lemma StoredKeyIsLoaded(w: WordSize, version: nat, items: seq<Item>, storePassword: Bytes, keyPassword: Bytes,
                          preferred: Bytes, i: nat, key: Bytes, salt: Bytes, parameters: Bytes)
    requires version == 1 || version == 2
    requires ItemsOk(version, items) && Legible(version, items)
    requires PasswordBytes(storePassword).Some? && Chosen(items, Wanted(preferred), i)
    requires |salt| == SALT && Modest(parameters) && |key| < 0x800_0000_0000_0000
    requires var effective := if keyPassword == [] then storePassword else keyPassword;
      && effective != [] && PasswordBytes(effective).Some?
      && items[i].body == Protect(key, PasswordBytes(effective).value, salt, parameters)
    ensures Load(w, StoreText(version, items, storePassword), storePassword, keyPassword, preferred) ==
      Some(KeyEntry(Name(items[i].alias), key, FirstDer(items[i].chain), Ders(items[i].chain)))
  {
    hide Selected, StoreBody, PasswordBytes, Recover, Protect, ItemsOk, Wanted, Legible, Digest;
    var body := StoreBody(version, items);
    var trailer := Digest(PasswordBytes(storePassword).value + WHITENER + body);
    StoreSelects(version, items, trailer, storePassword, preferred, i);
    BodyFits(version, items, i);
    var effective := if keyPassword == [] then storePassword else keyPassword;
    ProtectedIsRecovered(w, key, effective, salt, parameters);
  }

  /** Without an entry to return the store is refused: an alias that no private key has, or has last with an empty body,
      is never answered with another key. */
  lemma UnchosenFails(version: nat, items: seq<Item>, trailer: Bytes, password: Bytes, preferred: Bytes)
    requires version == 1 || version == 2
    requires ItemsOk(version, items) && |trailer| == 20
    requires forall i: nat :: !Chosen(items, Wanted(preferred), i)
    ensures Selected(StoreBody(version, items) + trailer, password, preferred) == None
  {
    hide HeaderAt, EntriesTo, Intact, Select, Wanted, At, HeaderText, ItemsText, Chosen, Legible;
    var body := StoreBody(version, items);
    var input := body + trailer;
    StoreParts(version, items, trailer);
    CountFitsFormat(version, items);
    HeaderReads(input, |body|, version, |items|);
    if Legible(version, items) {
      ItemsRead(input, 12, |body|, version, items);
      NothingChosen(items, Wanted(preferred));
    } else {
      ItemsUnread(input, 12, |body|, version, items);
    }
  }

  /** The entries of a written store are read exactly when every written string has its surrogates paired; a store with
      one that has not is refused, whichever key is asked for. */
  lemma StoreIsReadIff(version: nat, items: seq<Item>, trailer: Bytes)
    requires version == 1 || version == 2
    requires ItemsOk(version, items) && |trailer| == 20
    ensures var input := StoreBody(version, items) + trailer; var limit := |StoreBody(version, items)|;
      12 <= limit <= |input| && (EntriesTo(input, 12, limit, version, |items|).Some? <==> Legible(version, items))
    ensures !Legible(version, items) ==>
      forall password, preferred :: Selected(StoreBody(version, items) + trailer, password, preferred) == None
  {
    hide HeaderAt, EntriesTo, Intact, Select, Wanted, At, HeaderText, ItemsText, Legible;
    var body := StoreBody(version, items);
    var input := body + trailer;
    StoreParts(version, items, trailer);
    CountFitsFormat(version, items);
    HeaderReads(input, |body|, version, |items|);
    if Legible(version, items) {
      ItemsRead(input, 12, |body|, version, items);
    } else {
      ItemsUnread(input, 12, |body|, version, items);
    }
  }

  lemma SelectedIsIntact(input: Bytes, password: Bytes, preferred: Bytes)
    requires Selected(input, password, preferred).Some?
    ensures |input| >= 32 && Intact(input, |input| - 20, password)
  {
    hide HeaderAt, EntriesTo, Intact, Select, Wanted;
  }

  /** A key is selected from a written store with any trailer, under any password, exactly when the trailer belongs to
      the store under that password, the strings can be read and there is an entry to return. */
  lemma StoreSelectsIff(version: nat, items: seq<Item>, trailer: Bytes, password: Bytes, preferred: Bytes)
    requires version == 1 || version == 2
    requires ItemsOk(version, items) && |trailer| == 20
    ensures Selected(StoreBody(version, items) + trailer, password, preferred).Some? <==>
      && Signed(StoreBody(version, items), trailer, password)
      && Legible(version, items) && exists i: nat :: Chosen(items, Wanted(preferred), i)
  {
    hide Selected, StoreBody, Wanted, Legible, Chosen, ItemsOk, Signed, Intact;
    var body := StoreBody(version, items);
    IntactIsSigned(body, trailer, password);
    if Selected(body + trailer, password, preferred).Some? { SelectedIsIntact(body + trailer, password, preferred); }
    if !Legible(version, items) {
      StoreIsReadIff(version, items, trailer);
    } else if i: nat :| Chosen(items, Wanted(preferred), i) {
      if Signed(body, trailer, password) { StoreSelects(version, items, trailer, password, preferred, i); }
    } else {
      UnchosenFails(version, items, trailer, password, preferred);
    }
  }

  /** Such a store: its only entry is a private key under an alias that is a single high surrogate. */
  lemma UnpairedAliasRefused(version: nat, body: Bytes, trailer: Bytes, password: Bytes, preferred: Bytes)
    requires version == 1 || version == 2
    requires |body| < 0x1_0000_0000 && |trailer| == 20
    ensures Selected(StoreBody(version, [PrivateKey([0xD800], 0, body, [])]) + trailer, password, preferred) == None
  {
    hide Selected, StoreBody;
    var alias: seq<Unit> := [0xD800];
    var items := [PrivateKey(alias, 0, body, [])];
    assert alias[1..] == [];
    assert EncodeModified(alias) == WriteUnit(0xD800) + EncodeModified([]);
    assert !ItemLegible(version, items[0]);
    StoreIsReadIff(version, items, trailer);
  }

  /** Whatever is opened under a password ends in the digest of that password and all octets before it. */
  lemma OpenedIsSigned(input: Bytes, password: Bytes, preferred: Bytes)
    requires Selected(input, password, preferred).Some?
    ensures |input| >= 32 && Signed(input[..|input| - 20], input[|input| - 20..], password)
  {
    hide Selected, Signed, Intact;
    SelectedIsIntact(input, password, preferred);
    var n := |input| - 20;
    assert input == input[..n] + input[n..];
    IntactIsSigned(input[..n], input[n..], password);
  }

  /** So is whatever is loaded. */
  lemma LoadedIsSigned(w: WordSize, input: Bytes, storePassword: Bytes, keyPassword: Bytes, preferred: Bytes)
    requires Load(w, input, storePassword, keyPassword, preferred).Some?
    ensures |input| >= 32 && Signed(input[..|input| - 20], input[|input| - 20..], storePassword)
  {
    hide Selected, Signed, Recover;
    OpenedIsSigned(input, storePassword, preferred);
  }
}
