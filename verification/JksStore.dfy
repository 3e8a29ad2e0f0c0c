/**
 Reading a Java keystore (src/lib/core/KeyParsers.cpp:57-121, 193-210, 374-403, 610-806): the bounded readers, the entry
 loop with its selection variables, the integrity trailer, and the functions they compute.
 */
module JksStore {
  import opened ByteStrings
  import opened Der
  import opened Sha1
  import opened Utf
  import opened JavaUtf
  import opened JksAlias
  import opened JksProtector

  const MAGIC: nat := 0xFEEDFEED
  const WHITENER: Bytes := Ascii("Mighty Aphrodite")

  /** A value read at an offset, and the offset after it. */
  datatype Got<T> = Got(value: T, next: nat)

  // ---- The bounded readers ----------------------------------------------------------------------

  predicate Room(off: nat, limit: nat, n: nat) { off + n <= limit }

  /** A big-endian number of k octets. */
  function NumberAt(data: Bytes, off: nat, limit: nat, k: nat): (r: Option<Got<nat>>)
    requires limit <= |data|
    ensures r.Some? ==> r.value.next == off + k <= limit
  {
    if Room(off, limit, k) then Some(Got(BeValue(data[off..off + k]), off + k)) else None
  }

  function BytesAt(data: Bytes, off: nat, limit: nat, n: nat): (r: Option<Got<Bytes>>)
    requires limit <= |data|
    ensures r.Some? ==> r.value.next == off + n <= limit
  {
    if Room(off, limit, n) then Some(Got(data[off..off + n], off + n)) else None
  }

  /** A string with a 16-bit length, as UTF-8. */
  function StringAt(data: Bytes, off: nat, limit: nat): (r: Option<Got<Bytes>>)
    requires limit <= |data|
    ensures r.Some? ==> off <= r.value.next <= limit
  {
    var n := NumberAt(data, off, limit, 2);
    if n.None? || !Room(n.value.next, limit, n.value.value) then None else
    var units := DecodeModified(data[n.value.next..n.value.next + n.value.value]);
    if units.None? then None else
    match Encode(units.value) case None => None case Some(s) => Some(Got(s, n.value.next + n.value.value))
  }

  /** ReadU16, ReadU32 and ReadU64: the subtraction in the guard cannot wrap. */
  method ReadNumber(data: Bytes, off: nat, limit: nat, k: nat) returns (ok: bool, value: nat, next: nat)
    requires limit <= |data|
    ensures ok <==> NumberAt(data, off, limit, k).Some?
    ensures ok ==> NumberAt(data, off, limit, k) == Some(Got(value, next))
  {
    ok, value, next := false, 0, off;
    if off > limit || limit - off < k { return; }
    var i := 0;
    while i < k
      invariant 0 <= i <= k && value == BeValue(data[off..off + i])
    {
      BeValueStep(data, off, i);
      value := value * 256 + data[off + i];
      i := i + 1;
    }
    ok, next := true, off + k;
  }

  method ReadBytes(data: Bytes, off: nat, limit: nat, n: nat) returns (ok: bool, value: Bytes, next: nat)
    requires limit <= |data|
    ensures ok <==> BytesAt(data, off, limit, n).Some?
    ensures ok ==> BytesAt(data, off, limit, n) == Some(Got(value, next))
  {
    ok, value, next := false, [], off;
    if off > limit || n > limit - off { return; }
    ok, value, next := true, data[off..off + n], off + n;
  }

  method ReadModifiedUtf8(data: Bytes, off: nat, limit: nat) returns (ok: bool, value: Bytes, next: nat)
    requires limit <= |data|
    ensures ok <==> StringAt(data, off, limit).Some?
    ensures ok ==> StringAt(data, off, limit) == Some(Got(value, next))
  {
    hide DecodeModified, Encode;
    value := [];
    var n;
    ok, n, next := ReadNumber(data, off, limit, 2);
    if !ok { return; }
    hide NumberAt;
    if next > limit || n > limit - next { return false, value, next; }
    var units;
    ok, units := DecodeJavaModifiedUtf8(data[next..next + n]);
    if !ok { return; }
    ok, value := EncodeUtf16ToUtf8(units);
    next := next + n;
  }

  // ---- Certificates -----------------------------------------------------------------------------

  /** A certificate; from version 2 on its type precedes it. */
  function CertificateAt(data: Bytes, off: nat, limit: nat, version: nat): (r: Option<Got<Bytes>>)
    requires limit <= |data|
    ensures r.Some? ==> off <= r.value.next <= limit
  {
    var kind := if version == 2 then StringAt(data, off, limit) else Some(Got([], off));
    if kind.None? then None else
    var n := NumberAt(data, kind.value.next, limit, 4);
    if n.None? then None else BytesAt(data, n.value.next, limit, n.value.value)
  }

  /** The first k certificates of a chain. */
  function ChainTo(data: Bytes, off: nat, limit: nat, version: nat, k: nat): (r: Option<Got<seq<Bytes>>>)
    requires limit <= |data| && off <= limit
    ensures r.Some? ==> off <= r.value.next <= limit
  {
    if k == 0 then Some(Got([], off)) else
    var before := ChainTo(data, off, limit, version, k - 1);
    if before.None? then None else
    match CertificateAt(data, before.value.next, limit, version)
    case None => None
    case Some(c) => Some(Got(before.value.value + [c.value], c.next))
  }

  lemma {:induction false} ChainFails(data: Bytes, off: nat, limit: nat, version: nat, j: nat, k: nat)
    requires off <= limit <= |data| && j <= k && ChainTo(data, off, limit, version, j).None?
    ensures ChainTo(data, off, limit, version, k).None?
  {
    if j < k { ChainFails(data, off, limit, version, j, k - 1); }
  }

  method ReadCertificate(data: Bytes, off: nat, limit: nat, version: nat) returns (ok: bool, der: Bytes, next: nat)
    requires limit <= |data|
    ensures ok <==> CertificateAt(data, off, limit, version).Some?
    ensures ok ==> CertificateAt(data, off, limit, version) == Some(Got(der, next))
  {
    hide StringAt, NumberAt, BytesAt;
    ok, der, next := true, [], off;
    if version == 2 {
      var kind;
      ok, kind, next := ReadModifiedUtf8(data, next, limit);
      if !ok { return; }
    }
    var n;
    ok, n, next := ReadNumber(data, next, limit, 4);
    if !ok { return; }
    ok, der, next := ReadBytes(data, next, limit, n);
  }

  method ReadChain(data: Bytes, off: nat, limit: nat, version: nat, count: nat)
    returns (ok: bool, chain: seq<Bytes>, next: nat)
    requires off <= limit <= |data|
    ensures ok <==> ChainTo(data, off, limit, version, count).Some?
    ensures ok ==> ChainTo(data, off, limit, version, count) == Some(Got(chain, next))
  {
    hide CertificateAt;
    ok, chain, next := true, [], off;
    var i := 0;
    while i < count
      invariant 0 <= i <= count && ok && ChainTo(data, off, limit, version, i) == Some(Got(chain, next))
    {
      var der;
      ok, der, next := ReadCertificate(data, next, limit, version);
      if !ok {
        ChainFails(data, off, limit, version, i + 1, count);
        return;
      }
      chain := chain + [der];
      i := i + 1;
    }
  }

  // ---- Entries ----------------------------------------------------------------------------------

  datatype Entry = PrivateEntry(alias: Bytes, body: Bytes, chain: seq<Bytes>) | TrustedEntry(alias: Bytes)

  /** The count is refused when so many certificates of at least five octets cannot fit. */
  predicate CountFits(count: nat, off: nat, limit: nat) { off <= limit && count <= (limit - off) / 5 }

  function PrivateAt(data: Bytes, off: nat, limit: nat, version: nat, alias: Bytes): (r: Option<Got<Entry>>)
    requires limit <= |data|
    ensures r.Some? ==> off <= r.value.next <= limit
  {
    var n := NumberAt(data, off, limit, 4);
    if n.None? then None else
    var body := BytesAt(data, n.value.next, limit, n.value.value);
    if body.None? then None else
    var count := NumberAt(data, body.value.next, limit, 4);
    if count.None? || !CountFits(count.value.value, count.value.next, limit) then None else
    match ChainTo(data, count.value.next, limit, version, count.value.value)
    case None => None
    case Some(chain) => Some(Got(PrivateEntry(alias, body.value.value, chain.value), chain.next))
  }

  function EntryAt(data: Bytes, off: nat, limit: nat, version: nat): (r: Option<Got<Entry>>)
    requires limit <= |data|
    ensures r.Some? ==> off <= r.value.next <= limit
  {
    var tag := NumberAt(data, off, limit, 4);
    if tag.None? then None else
    var alias := StringAt(data, tag.value.next, limit);
    if alias.None? then None else
    var time := NumberAt(data, alias.value.next, limit, 8);
    if time.None? then None else
    if tag.value.value == 1 then PrivateAt(data, time.value.next, limit, version, alias.value.value)
    else if tag.value.value == 2 then
      match CertificateAt(data, time.value.next, limit, version)
      case None => None
      case Some(c) => Some(Got(TrustedEntry(alias.value.value), c.next))
    else None
  }

  /** The first k entries. */
  function EntriesTo(data: Bytes, off: nat, limit: nat, version: nat, k: nat): (r: Option<Got<seq<Entry>>>)
    requires limit <= |data| && off <= limit
    ensures r.Some? ==> off <= r.value.next <= limit
  {
    if k == 0 then Some(Got([], off)) else
    var before := EntriesTo(data, off, limit, version, k - 1);
    if before.None? then None else
    match EntryAt(data, before.value.next, limit, version)
    case None => None
    case Some(e) => Some(Got(before.value.value + [e.value], e.next))
  }

  lemma {:induction false} EntriesFail(data: Bytes, off: nat, limit: nat, version: nat, j: nat, k: nat)
    requires off <= limit <= |data| && j <= k && EntriesTo(data, off, limit, version, j).None?
    ensures EntriesTo(data, off, limit, version, k).None?
  {
    hide EntryAt;
    if j < k {
      EntriesFail(data, off, limit, version, j, k - 1);
      assert EntriesTo(data, off, limit, version, k - 1).None?;
    }
  }

  method ReadPrivate(data: Bytes, off: nat, limit: nat, version: nat, alias: Bytes)
    returns (ok: bool, entry: Entry, next: nat)
    requires limit <= |data|
    ensures ok <==> PrivateAt(data, off, limit, version, alias).Some?
    ensures ok ==> PrivateAt(data, off, limit, version, alias) == Some(Got(entry, next))
  {
    hide NumberAt, BytesAt, ChainTo;
    entry := TrustedEntry(alias);
    var n, body, count, chain;
    ok, n, next := ReadNumber(data, off, limit, 4);
    if !ok { return; }
    ok, body, next := ReadBytes(data, next, limit, n);
    if !ok { return; }
    ok, count, next := ReadNumber(data, next, limit, 4);
    if !ok { return; }
    var remaining := if limit > next then limit - next else 0;
    if count > remaining / 5 { return false, entry, next; }
    ok, chain, next := ReadChain(data, next, limit, version, count);
    entry := PrivateEntry(alias, body, chain);
  }

  method ReadEntry(data: Bytes, off: nat, limit: nat, version: nat) returns (ok: bool, entry: Entry, next: nat)
    requires limit <= |data|
    ensures ok <==> EntryAt(data, off, limit, version).Some?
    ensures ok ==> EntryAt(data, off, limit, version) == Some(Got(entry, next))
  {
    hide NumberAt, StringAt, PrivateAt, CertificateAt;
    entry := TrustedEntry([]);
    var tag, alias, time, der;
    ok, tag, next := ReadNumber(data, off, limit, 4);
    if !ok { return; }
    ok, alias, next := ReadModifiedUtf8(data, next, limit);
    if !ok { return; }
    ok, time, next := ReadNumber(data, next, limit, 8);
    if !ok { return; }
    if tag == 1 {
      ok, entry, next := ReadPrivate(data, next, limit, version, alias);
    } else if tag == 2 {
      ok, der, next := ReadCertificate(data, next, limit, version);
      entry := TrustedEntry(alias);
    } else {
      ok := false;
    }
  }

  // ---- Selection --------------------------------------------------------------------------------

  /** The variables of the entry loop; `wanted` is the normalised alias asked for, or empty. */
  datatype Selection = Selection(anyPrivate: bool, found: bool, alias: Bytes, body: Bytes, chain: seq<Bytes>)

  const NOTHING: Selection := Selection(false, false, [], [], [])

  predicate Takes(sel: Selection, alias: Bytes, wanted: Bytes) {
    if wanted == [] then sel.body == [] else Normalize(alias) == wanted
  }

  function Pick(sel: Selection, e: Entry, wanted: Bytes): (r: Selection) {
    match e
    case TrustedEntry(_) => sel
    case PrivateEntry(alias, body, chain) =>
      if Takes(sel, alias, wanted) then Selection(true, true, alias, body, chain) else sel.(anyPrivate := true)
  }

  function Select(entries: seq<Entry>, wanted: Bytes): (r: Selection) {
    if entries == [] then NOTHING
    else Pick(Select(entries[..|entries| - 1], wanted), entries[|entries| - 1], wanted)
  }

  lemma SelectStep(entries: seq<Entry>, e: Entry, wanted: Bytes)
    ensures Select(entries + [e], wanted) == Pick(Select(entries, wanted), e, wanted)
  {
    assert (entries + [e])[..|entries|] == entries;
  }

  method ReadEntries(data: Bytes, off: nat, limit: nat, version: nat, count: nat, wanted: Bytes)
    returns (ok: bool, sel: Selection, next: nat)
    requires off <= limit <= |data|
    ensures ok <==> EntriesTo(data, off, limit, version, count).Some?
    ensures ok ==> next == EntriesTo(data, off, limit, version, count).value.next
    ensures ok ==> sel == Select(EntriesTo(data, off, limit, version, count).value.value, wanted)
  {
    hide EntryAt, Normalize, Select;
    ok, sel, next := true, NOTHING, off;
    ghost var entries: seq<Entry> := [];
    NothingSelected(wanted);
    var i := 0;
    while i < count
      invariant 0 <= i <= count && ok && EntriesTo(data, off, limit, version, i) == Some(Got(entries, next))
      invariant sel == Select(entries, wanted)
    {
      var e;
      ok, e, next := ReadEntry(data, next, limit, version);
      if !ok {
        EntriesFail(data, off, limit, version, i + 1, count);
        return;
      }
      SelectStep(entries, e, wanted);
      if e.PrivateEntry? {
        sel := sel.(anyPrivate := true);
        var matches := sel.body == [];
        if wanted != [] {
          var name := NormalizeJksAlias(e.alias);
          matches := name == wanted;
        }
        if matches { sel := Selection(true, true, e.alias, e.body, e.chain); }
      }
      entries := entries + [e];
      i := i + 1;
    }
  }

  lemma NothingSelected(wanted: Bytes)
    ensures Select([], wanted) == NOTHING
  {
  }

  // ---- The store --------------------------------------------------------------------------------

  /** The trailer is the digest of the password, the whitener and the body; an empty password checks nothing. */
  predicate Intact(input: Bytes, size: nat, password: Bytes) {
    password == [] ||
    (size + DIGEST <= |input| && PasswordBytes(password).Some? &&
     Digest(PasswordBytes(password).value + WHITENER + input[..size]) == input[size..size + DIGEST])
  }

  /** The trailer is the digest of this password, the sixteen octets of the whitener and the body. */
  predicate SignedBy(body: Bytes, trailer: Bytes, password: Bytes) {
    && PasswordBytes(password).Some?
    && trailer == Digest(PasswordBytes(password).value + Ascii("Mighty Aphrodite") + body)
  }

  method VerifyJksIntegrity(input: Bytes, size: nat, password: Bytes) returns (ok: bool)
    ensures ok <==> Intact(input, size, password)
    ensures password == [] ==> ok
    ensures ok && password != [] ==> size + 20 <= |input|
    ensures password != [] && size + 20 <= |input| ==>
      (ok <==> SignedBy(input[..size], input[size..size + 20], password))
  {
    hide PasswordBytes, Digest, Ascii;
    if password == [] { return true; }
    if |input| < size + DIGEST { return false; }
    var p;
    ok, p := ToJksPasswordBytes(password);
    if !ok { return; }
    var computed := Sha1Digest(p + WHITENER + input[..size]);
    ok := computed == input[size..size + DIGEST];
  }

  datatype KeyEntry = KeyEntry(alias: Bytes, key: Bytes, certificate: Bytes, chain: seq<Bytes>)

  function FirstOf(chain: seq<Bytes>): (r: Bytes) { if chain == [] then [] else chain[0] }

  /** The header: version and number of entries. */
  function HeaderAt(input: Bytes, limit: nat): (r: Option<(nat, nat)>)
    requires limit <= |input|
  {
    var magic, version := NumberAt(input, 0, limit, 4), NumberAt(input, 4, limit, 4);
    var count := NumberAt(input, 8, limit, 4);
    if magic.None? || magic.value.value != MAGIC || version.None? || count.None? then None
    else if version.value.value != 1 && version.value.value != 2 then None
    else Some((version.value.value, count.value.value))
  }

  function Wanted(preferred: Bytes): (r: Bytes) { if preferred == [] then [] else Normalize(preferred) }

  /** The selected entry of a store that is well formed and intact. */
  function Selected(input: Bytes, storePassword: Bytes, preferred: Bytes): (r: Option<Selection>) {
    if |input| < 12 + DIGEST then None else
    var limit := |input| - DIGEST;
    var header := HeaderAt(input, limit);
    if header.None? then None else
    var entries := EntriesTo(input, 12, limit, header.value.0, header.value.1);
    if entries.None? || entries.value.next != limit || !Intact(input, limit, storePassword) then None else
    var sel := Select(entries.value.value, Wanted(preferred));
    if !sel.anyPrivate || (Wanted(preferred) != [] && !sel.found) || sel.body == [] then None else Some(sel)
  }

  function Load(w: WordSize, input: Bytes, storePassword: Bytes, keyPassword: Bytes,
                preferred: Bytes): (r: Option<KeyEntry>)
  {
    match Selected(input, storePassword, preferred)
    case None => None
    case Some(sel) =>
      match Recover(w, sel.body, if keyPassword == [] then storePassword else keyPassword)
      case None => None
      case Some(key) => Some(KeyEntry(sel.alias, key, FirstOf(sel.chain), sel.chain))
  }

  method ReadHeader(input: Bytes, limit: nat) returns (ok: bool, version: nat, count: nat)
    requires 12 <= limit <= |input|
    ensures ok <==> HeaderAt(input, limit).Some?
    ensures ok ==> HeaderAt(input, limit) == Some((version, count))
  {
    hide NumberAt;
    var magic, off;
    version, count := 0, 0;
    ok, magic, off := ReadNumber(input, 0, limit, 4);
    if !ok || magic != MAGIC { return false, version, count; }
    ok, version, off := ReadNumber(input, off, limit, 4);
    if !ok { return; }
    ok, count, off := ReadNumber(input, off, limit, 4);
    if !ok || (version != 1 && version != 2) { return false, version, count; }
  }

  method SelectEntry(input: Bytes, storePassword: Bytes, preferred: Bytes) returns (ok: bool, sel: Selection)
    ensures ok <==> Selected(input, storePassword, preferred).Some?
    ensures ok ==> Selected(input, storePassword, preferred) == Some(sel)
  {
    hide HeaderAt, EntriesTo, Intact, Select, Normalize;
    ok, sel := false, NOTHING;
    if |input| < 12 + DIGEST { return; }
    var limit := |input| - DIGEST;
    var fine, version, count := ReadHeader(input, limit);
    if !fine { return; }
    var wanted := [];
    if preferred != [] { wanted := NormalizeJksAlias(preferred); }
    var next;
    fine, sel, next := ReadEntries(input, 12, limit, version, count, wanted);
    if !fine || next != limit { return; }
    fine := VerifyJksIntegrity(input, limit, storePassword);
    if !fine || !sel.anyPrivate || (wanted != [] && !sel.found) || sel.body == [] { return; }
    ok := true;
  }

  method LoadPrivateKeyEntry(w: WordSize, input: Bytes, storePassword: Bytes, keyPassword: Bytes, preferred: Bytes)
    returns (r: Option<KeyEntry>)
    requires |input| < WordLimit(w)
    ensures r == Load(w, input, storePassword, keyPassword, preferred)
  {
    hide Recover, Selected;
    var ok, sel := SelectEntry(input, storePassword, preferred);
    if !ok { return None; }
    SelectedIsSmall(input, storePassword, preferred);
    var key;
    ok, key := RecoverJksPrivateKey(w, sel.body, if keyPassword == [] then storePassword else keyPassword);
    r := if ok then Some(KeyEntry(sel.alias, key, FirstOf(sel.chain), sel.chain)) else None;
  }

  // ---- What is selected is part of the input ------------------------------------------------------

  predicate BodiesFit(entries: seq<Entry>, size: nat) {
    forall i :: 0 <= i < |entries| && entries[i].PrivateEntry? ==> |entries[i].body| <= size
  }

  lemma {:induction false} EntriesAreSmall(data: Bytes, off: nat, limit: nat, version: nat, k: nat)
    requires off <= limit <= |data| && EntriesTo(data, off, limit, version, k).Some?
    ensures BodiesFit(EntriesTo(data, off, limit, version, k).value.value, limit)
  {
    hide ChainTo, StringAt, CertificateAt, NumberAt;
    if k > 0 { EntriesAreSmall(data, off, limit, version, k - 1); }
  }

  lemma {:induction false} SelectionIsSmall(entries: seq<Entry>, wanted: Bytes, size: nat)
    requires BodiesFit(entries, size)
    ensures |Select(entries, wanted).body| <= size
  {
    hide Normalize;
    if entries != [] { SelectionIsSmall(entries[..|entries| - 1], wanted, size); }
  }

  lemma SelectedIsSmall(input: Bytes, storePassword: Bytes, preferred: Bytes)
    requires Selected(input, storePassword, preferred).Some?
    ensures |Selected(input, storePassword, preferred).value.body| <= |input|
  {
    hide HeaderAt, EntriesTo, Intact, Select, Normalize;
    var limit := |input| - DIGEST;
    var header := HeaderAt(input, limit).value;
    EntriesAreSmall(input, 12, limit, header.0, header.1);
    SelectionIsSmall(EntriesTo(input, 12, limit, header.0, header.1).value.value, Wanted(preferred), limit);
  }
}
