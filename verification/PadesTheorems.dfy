/**
 What a finished signing run promises about the bytes of the output, read back with independent readers:
 the signed bytes, the cross-reference sections, the chain of trailers.
 */
module PadesTheorems {
  import opened ByteStrings
  import opened Decimal
  import opened Der
  import opened PdfByteRange
  import opened PdfPlaceholders
  import opened PdfTrailer
  import opened PdfXref
  import opened PdfRevision
  import opened PdfAssembly
  import opened PadesLog

  /** Where the parts of a revision lie in the file. */
  lemma RevisionParts(pdf: Bytes, r: Revision)
    requires RevisionOk(pdf, r)
    ensures At(pdf, r.start, ObjectsText(r.objects)) && At(pdf, StartXref(r), XrefText(Entries(r.start, r.objects)))
    ensures var tail := Tail(r.dict, StartXref(r));
            At(pdf, End(r) - |tail|, tail) && End(r) - |tail| == StartXref(r) + |XrefText(Entries(r.start, r.objects))|
    ensures End(r) <= |pdf|
  {
    hide At, ObjectsText, XrefText, Entries, Tail;
    AtSplit3(pdf, r.start, ObjectsText(r.objects), XrefText(Entries(r.start, r.objects)), Tail(r.dict, StartXref(r)));
    AtBounds(pdf, r.start, Text(r));
  }

  lemma DictionaryAt(pdf: Bytes, r: Revision)
    requires RevisionOk(pdf, r) && r.content.Sealed?
    ensures HasSlots(r) && At(pdf, DictAt(r), r.objects[r.content.index].body)
  {
    hide At, ObjectsText, BodyOffset, Text, StartXref, XrefText, Tail, End;
    RevisionParts(pdf, r);
    SigBodyAt(r.objects, r.content.index);
    var body := r.objects[r.content.index].body;
    AtTrans(pdf, r.start, ObjectsText(r.objects), BodyOffset(r.objects, r.content.index), body);
  }

  /** The range is readable from the final file, whatever was patched and appended after it. */
  lemma RangeReadsBack(pdf: Bytes, r: Revision)
    requires RevisionOk(pdf, r) && r.content.Sealed?
    ensures HasSlots(r) && ReadRange(pdf, Open(r)) == Some(r.content.range)
  {
    hide At, SigBody, RangeField, RangeNumbers, HexSlot, ReadRange, DictAt, OpenAt, End, SignedOk;
    DictionaryAt(pdf, r);
    var c := r.content;
    var field := RangeField(c.range, BYTE_RANGE_SLOT_LEN);
    BodyParts(c.kind, field, HexSlot(c.contents), c.extra);
    AtTrans(pdf, DictAt(r), r.objects[c.index].body, OpenAt(c.kind), field);
    ReadRangeAt(pdf, Open(r), c.range, BYTE_RANGE_SLOT_LEN);
  }

  /** Extracting the range from the final file gives exactly the bytes that were handed to the signer. */
  lemma ExtractsSigned(pdf: Bytes, r: Revision)
    requires RevisionOk(pdf, r) && r.content.Sealed?
    ensures Extract(pdf, r.content.range) == r.content.signed
  {
    hide Text, DictAt, SigBody, RangeField, RangeNumbers, HexSlot, LtAt, GtAt, AscendingIds;
  }

  lemma SlotHolds(pdf: Bytes, r: Revision)
    requires RevisionOk(pdf, r) && r.content.Sealed?
    ensures HasSlots(r) && Lt(r) < Gt(r) <= |pdf| && 2 * |r.content.contents| <= CONTENTS_HEX_LEN
    ensures pdf[Lt(r) + 1..Gt(r)] == HexSlot(r.content.contents)
  {
    hide At, SigBody, RangeField, RangeNumbers, DictAt, End, SignedOk, LtAt;
    DictionaryAt(pdf, r);
    var c := r.content;
    BodyParts(c.kind, RangeField(c.range, BYTE_RANGE_SLOT_LEN), HexSlot(c.contents), c.extra);
    AtTrans(pdf, DictAt(r), r.objects[c.index].body, LtAt(c.kind) + 1, HexSlot(c.contents));
    AtSlice(pdf, Lt(r) + 1, HexSlot(c.contents));
  }

  /** The contents slot of the final file decodes and trims to the signature that was written. */
  lemma ContentsReadBack(w: WordSize, pdf: Bytes, r: Revision)
    requires RevisionOk(pdf, r) && r.content.Sealed? && WholeSequence(w, r.content.contents)
    ensures HasSlots(r) && Lt(r) < Gt(r) <= |pdf|
    ensures TrimDer(w, HexDecode(pdf[Lt(r) + 1..Gt(r)])) == r.content.contents
  {
    hide At, RevisionOk, HasSlots, Lt, Gt, TrimDer, WholeSequence, HexDecode, HexSlot;
    SlotHolds(pdf, r);
    SlotDecodes(w, r.content.contents);
  }

  lemma SlotDecodes(w: WordSize, contents: Bytes)
    requires WholeSequence(w, contents) && 2 * |contents| <= CONTENTS_HEX_LEN
    ensures TrimDer(w, HexDecode(HexSlot(contents))) == contents
  {
    hide TrimDer, WholeSequence, HexDecode, HexUpper;
    ContentsRoundTrip(w, contents, (CONTENTS_HEX_LEN - 2 * |contents|) / 2);
  }

  /** A signature dictionary as a reader finds it: its type and sub-filter by kind, then the range, then the contents
      string, the further entries and the closing brackets. */
  predicate DictionaryFrom(pdf: Bytes, d: nat, c: Content)
    requires c.Sealed?
  {
    var kind, filter := Ascii(if c.kind.Signature? then "Sig" else "DocTimeStamp"),
                        Ascii(if c.kind.Signature? then "ETSI.CAdES.detached" else "ETSI.RFC3161");
    var p := d + 8 + |kind|;
    var q := p + 32 + |filter| + 11;
    var gt := q + 80 + 11 + 16384;
    && At(pdf, d, Ascii("<</Type/")) && At(pdf, d + 8, kind) && At(pdf, p, Ascii("/Filter/"))
    && At(pdf, p + 8, Ascii("Adobe.PPKLite")) && At(pdf, p + 21, Ascii("/SubFilter/")) && At(pdf, p + 32, filter)
    && At(pdf, q - 11, Ascii("/ByteRange ")) && ReadRange(pdf, q) == Some(c.range)
    && At(pdf, q + 80, Ascii("/Contents <")) && At(pdf, gt, Ascii(">")) && At(pdf, gt + 1, c.extra)
    && At(pdf, gt + 1 + |c.extra|, Ascii(">>"))
  }

  lemma PrefixPieces(s: Bytes, off: nat, kind: SigKind)
    requires At(s, off, Prefix(kind))
    ensures var name, filter := Ascii(TypeName(kind)), Ascii(SubFilter(kind));
      var p := off + 8 + |name|;
      && At(s, off, Ascii("<</Type/")) && At(s, off + 8, name) && At(s, p, Ascii("/Filter/"))
      && At(s, p + 8, Ascii("Adobe.PPKLite")) && At(s, p + 21, Ascii("/SubFilter/")) && At(s, p + 32, filter)
      && At(s, p + 32 + |filter|, Ascii("/ByteRange ")) && |Prefix(kind)| == 8 + |name| + 32 + |filter| + 11
  {
    hide At, Ascii, TypeName, SubFilter;
    AtSplit(s, off, Ascii("<</Type/"), PrefixTail(kind));
    AtSplit(s, off + 8, Names(kind), Ascii("/ByteRange "));
    var name, filter := Ascii(TypeName(kind)), Ascii(SubFilter(kind));
    AtSplit(s, off + 8, name + Ascii("/Filter/") + Ascii("Adobe.PPKLite") + Ascii("/SubFilter/"), filter);
    AtSplit4(s, off + 8, name, Ascii("/Filter/"), Ascii("Adobe.PPKLite"), Ascii("/SubFilter/"));
  }

  lemma BodyPieces(s: Bytes, off: nat, kind: SigKind, range: Bytes, hex: Bytes, extra: Bytes)
    requires At(s, off, SigBody(kind, range, hex, extra)) && |range| == 80 && |hex| == 16384
    ensures var q := off + |Prefix(kind)|; var gt := q + 80 + 11 + 16384;
      && At(s, off, Prefix(kind)) && At(s, q, range) && At(s, q + 80, Ascii("/Contents <"))
      && At(s, gt, Ascii(">")) && At(s, gt + 1, extra) && At(s, gt + 1 + |extra|, Ascii(">>"))
  {
    hide At, Prefix;
    AngleBrackets();
    hide Ascii;
    AtSplit(s, off, Prefix(kind) + range + Middle() + hex, [0x3E] + extra + [0x3E, 0x3E]);
    AtSplit4(s, off, Prefix(kind), range, Middle(), hex);
    AtSplit3(s, off + |Prefix(kind)| + 80 + 11 + 16384, [0x3E], extra, [0x3E, 0x3E]);
  }

  lemma AngleBrackets()
    ensures Ascii(">") == [0x3E] && Ascii(">>") == [0x3E, 0x3E]
  {
  }

  /** The dictionary of every signature and timestamp is found through the section of its revision. */
  lemma DictionaryReadsBack(pdf: Bytes, r: Revision) returns (off: nat)
    requires RevisionOk(pdf, r) && r.content.Sealed?
    ensures HasSlots(r)
    ensures var key := r.objects[r.content.index].key; XrefEntry(key.id, off, key.gen) in Entries(r.start, r.objects)
    ensures ReadHeader(pdf, off).Some? && DictionaryFrom(pdf, ReadHeader(pdf, off).value.next, r.content)
  {
    hide At, SigBody, RangeField, RangeNumbers, HexSlot, DictAt, End, SignedOk, Entries, ReadHeader, ReadRange, Prefix,
         Ascii, StartXref;
    SlotsAreThere(pdf, r);
    var c := r.content;
    off := ObjectReadsBack(pdf, r, c.index);
    var d := ReadHeader(pdf, off).value.next;
    var field := RangeField(c.range, BYTE_RANGE_SLOT_LEN);
    BodyPieces(pdf, d, c.kind, field, HexSlot(c.contents), c.extra);
    PrefixPieces(pdf, d, c.kind);
    ReadRangeAt(pdf, d + |Prefix(c.kind)|, c.range, BYTE_RANGE_SLOT_LEN);
  }

  lemma SlotsAreThere(pdf: Bytes, r: Revision)
    requires RevisionOk(pdf, r) && r.content.Sealed?
    ensures SlotsFilled(r)
  {
  }

  /** Every signature and document timestamp of a run, in the final file. */
  lemma SignedBytesSurvive(w: WordSize, doc: Bytes, out: Bytes, prev: nat, log: seq<Revision>, i: nat)
    requires RunOk(doc, out, prev, log) && i < |log| && log[i].content.Sealed?
    ensures doc <= out && HasSlots(log[i])
    ensures ReadRange(out, Open(log[i])) == Some(log[i].content.range)
    ensures Extract(out, log[i].content.range) == log[i].content.signed
    ensures WholeSequence(w, log[i].content.contents) ==>
              && Lt(log[i]) < Gt(log[i]) <= |out|
              && TrimDer(w, HexDecode(out[Lt(log[i]) + 1..Gt(log[i])])) == log[i].content.contents
  {
    hide RevisionOk, ReadRange, Extract, TrimDer, HexDecode, WholeSequence, Linked, Lt, Gt, Open;
    RangeReadsBack(out, log[i]);
    ExtractsSigned(out, log[i]);
    if WholeSequence(w, log[i].content.contents) { ContentsReadBack(w, out, log[i]); }
  }

  // ---- Cross-reference sections and trailers ----------------------------------------------------------

  /** An object header: two numbers with a space between them, the keyword and a newline. */
  datatype ObjectHeader = ObjectHeader(id: nat, gen: nat, next: nat)

  function ReadHeader(s: Bytes, pos: nat): (r: Option<ObjectHeader>) {
    if pos > |s| then None else
    var id := ReadNumber(s, pos);
    if id.None? || !At(s, id.value.next, Ascii(" ")) then None else
    var gen := ReadNumber(s, id.value.next + 1);
    if gen.None? || !At(s, gen.value.next, Ascii(" obj\n")) then None
    else Some(ObjectHeader(id.value.value, gen.value.value, gen.value.next + 5))
  }

  lemma Keywords()
    ensures Ascii(" ") == SPACE && Ascii(" obj\n") == OBJ && Ascii("\nendobj\n") == ENDOBJ
  {
  }

  lemma HeaderReadsBack(s: Bytes, pos: nat, key: ObjGen)
    requires At(s, pos, Header(key))
    ensures ReadHeader(s, pos) == Some(ObjectHeader(key.id, key.gen, pos + |Header(key)|))
  {
    hide At, Dec, ReadNumber, Ascii;
    Keywords();
    AtBounds(s, pos, Header(key));
    AtSplit4(s, pos, Dec(key.id), SPACE, Dec(key.gen), OBJ);
    var p := pos + |Dec(key.id)|;
    var q := p + 1 + |Dec(key.gen)|;
    AtIndex(s, p, SPACE, 0);
    AtIndex(s, q, OBJ, 0);
    ReadDec(s, pos, key.id);
    ReadDec(s, p + 1, key.gen);
  }

  /** Every entry points at the header of its own object: its number and its generation are read there. */
  lemma EntryPointsAtHeader(pdf: Bytes, r: Revision, e: XrefEntry)
    requires RevisionOk(pdf, r) && e in Entries(r.start, r.objects)
    ensures r.start <= e.offset < StartXref(r) && ReadsAs(pdf, e)
  {
    hide At, ObjectsText, Entries, Header, RevisionOk, XrefText, Tail, Ascending, ReadHeader;
    RevisionParts(pdf, r);
    EntriesAscending(r.start, r.objects);
    var k :| 0 <= k < |r.objects| && PointsAt(r.start, r.objects, e, k);
    ObjectTextAt(r.objects, k);
    var off := |ObjectsText(r.objects[..k])|;
    AtBounds(ObjectsText(r.objects), off, ObjectText(r.objects[k]));
    AtTrans(pdf, r.start, ObjectsText(r.objects), off, ObjectText(r.objects[k]));
    AtSplit3(pdf, r.start + off, Header(r.objects[k].key), r.objects[k].body, ENDOBJ);
    HeaderReadsBack(pdf, r.start + off, r.objects[k].key);
  }

  predicate ReadsAs(pdf: Bytes, e: XrefEntry) {
    var h := ReadHeader(pdf, e.offset);
    h.Some? && h.value.id == e.id && h.value.gen == e.gen
  }

  /** An object as a reader finds it: its header, its body and the closing keyword. */
  predicate ObjectAt(pdf: Bytes, off: nat, o: IncrementalObject) {
    var h := ReadHeader(pdf, off);
    && h.Some? && h.value.id == o.key.id && h.value.gen == o.key.gen
    && At(pdf, h.value.next, o.body) && At(pdf, h.value.next + |o.body|, Ascii("\nendobj\n"))
  }

  /** The section that startxref names has an entry for every object of the revision, and the object is found there. */
  lemma ObjectReadsBack(pdf: Bytes, r: Revision, k: nat) returns (off: nat)
    requires RevisionOk(pdf, r) && k < |r.objects|
    ensures XrefEntry(r.objects[k].key.id, off, r.objects[k].key.gen) in Entries(r.start, r.objects)
    ensures r.start <= off < StartXref(r) && ObjectAt(pdf, off, r.objects[k])
    ensures ReadHeader(pdf, off).Some? && ReadHeader(pdf, off).value.next + |r.objects[k].body| + 8 <= StartXref(r)
  {
    hide At, ObjectsText, Entries, Header, RevisionOk, XrefText, Tail, ReadHeader, Ascii;
    Keywords();
    var o := r.objects[k];
    off := r.start + |ObjectsText(r.objects[..k])|;
    ObjectHasEntry(pdf, r, k);
    AtSplit3(pdf, off, Header(o.key), o.body, ENDOBJ);
    HeaderReadsBack(pdf, off, o.key);
    ObjectTextAt(r.objects, k);
    AtBounds(ObjectsText(r.objects), |ObjectsText(r.objects[..k])|, ObjectText(o));
  }

  /** Every object of the revision has its entry. */
  lemma ObjectHasEntry(pdf: Bytes, r: Revision, k: nat)
    requires RevisionOk(pdf, r) && k < |r.objects|
    ensures XrefEntry(r.objects[k].key.id, r.start + |ObjectsText(r.objects[..k])|, r.objects[k].key.gen)
              in Entries(r.start, r.objects)
    ensures At(pdf, r.start + |ObjectsText(r.objects[..k])|, ObjectText(r.objects[k]))
  {
    hide At, ObjectsText, Entries, ObjectText, XrefText, Tail, SlotsFilled, End, StartXref;
    EntriesCover(r.start, r.objects, k);
    RevisionParts(pdf, r);
    ObjectTextAt(r.objects, k);
    AtTrans(pdf, r.start, ObjectsText(r.objects), |ObjectsText(r.objects[..k])|, ObjectText(r.objects[k]));
  }

  lemma TailStartsWithT(dict: Bytes, startxref: nat)
    ensures |Tail(dict, startxref)| > 0 && Tail(dict, startxref)[0] == 0x74
  {
    assert TRAILER[0] == 0x74;
  }

  /** The section that startxref names reads back as the maximal runs of the offset map. */
  lemma SectionReadsBack(pdf: Bytes, r: Revision)
    requires RevisionOk(pdf, r)
    ensures var es := Entries(r.start, r.objects);
      ReadXref(pdf, StartXref(r)) == Some(Read(Runs(es, 0), StartXref(r) + |XrefText(es)|))
  {
    hide At, Entries, XrefText, Tail, RevisionOk, ReadXref, Runs, StartXref, End;
    RevisionParts(pdf, r);
    TailStartsWithT(r.dict, StartXref(r));
    var tail := Tail(r.dict, StartXref(r));
    AtIndex(pdf, End(r) - |tail|, tail, 0);
    ReadXrefAt(pdf, StartXref(r), Entries(r.start, r.objects));
  }

  /** A trailer as a reader finds it: the keyword, the dictionary, the other keyword, a number and the marker. */
  predicate TrailerAt(pdf: Bytes, p: nat, dict: Bytes, startxref: nat, end: nat) {
    var q := p + 8 + |dict|;
    && At(pdf, p, Ascii("trailer\n")) && At(pdf, p + 8, dict) && At(pdf, q, Ascii("\nstartxref\n"))
    && q + 11 <= |pdf|
    && var n := ReadNumber(pdf, q + 11);
    n.Some? && n.value.value == startxref && At(pdf, n.value.next, Ascii("\n%%EOF\n")) && n.value.next + 7 == end
  }

  /** Directly after the section stands the printed trailer, with the offset of the section, and with it the revision
      ends. */
  lemma TrailerStandsThere(pdf: Bytes, r: Revision)
    requires RevisionOk(pdf, r)
    ensures ReadXref(pdf, StartXref(r)).Some? && At(pdf, StartXref(r), Ascii("xref\n"))
    ensures TrailerAt(pdf, ReadXref(pdf, StartXref(r)).value.next, r.dict, StartXref(r), End(r))
  {
    hide At, Entries, XrefText, RevisionOk, Tail, ReadXref, StartXref, End, Runs, TrailerAt;
    SectionReadsBack(pdf, r);
    RevisionParts(pdf, r);
    TailIsTrailer(pdf, End(r) - |Tail(r.dict, StartXref(r))|, r.dict, StartXref(r));
    SectionKeyword(pdf, StartXref(r));
  }

  lemma SectionKeyword(pdf: Bytes, p: nat)
    requires ReadXref(pdf, p).Some?
    ensures At(pdf, p, Ascii("xref\n"))
  {
    assert Ascii("xref\n") == XREF;
  }

  lemma TailIsTrailer(pdf: Bytes, p: nat, dict: Bytes, startxref: nat)
    requires At(pdf, p, Tail(dict, startxref))
    ensures TrailerAt(pdf, p, dict, startxref, p + |Tail(dict, startxref)|)
  {
    hide At, Dec, ReadNumber, Ascii, Tail;
    var q, d := p + 8 + |dict|, Dec(startxref);
    TailPieces(pdf, p, dict, startxref);
    StartLine();
    AtIndex(pdf, q + 11 + |d|, EOF, 0);
    AtBounds(pdf, q + 11 + |d|, EOF);
    ReadDec(pdf, q + 11, startxref);
  }

  lemma TailPieces(pdf: Bytes, p: nat, dict: Bytes, startxref: nat)
    requires At(pdf, p, Tail(dict, startxref))
    ensures var q, d := p + 8 + |dict|, Dec(startxref);
      && At(pdf, p, TRAILER) && At(pdf, p + 8, dict) && At(pdf, q, [0x0A] + STARTXREF + [0x0A])
      && At(pdf, q + 11, d) && At(pdf, q + 11 + |d|, EOF) && p + |Tail(dict, startxref)| == q + 11 + |d| + 7
  {
    hide At, Dec, Ascii;
    StartLine();
    var q, d := p + 8 + |dict|, Dec(startxref);
    AtSplit4(pdf, p, TRAILER, dict, [0x0A], STARTXREF + [0x0A] + d + EOF);
    AtSplit4(pdf, q + 1, STARTXREF, [0x0A], d, EOF);
    AtJoin(pdf, q, [0x0A], STARTXREF);
    AtJoin(pdf, q, [0x0A] + STARTXREF, [0x0A]);
  }

  lemma StartLine()
    ensures Ascii("\nstartxref\n") == [0x0A] + STARTXREF + [0x0A] && |TRAILER| == 8
    ensures |STARTXREF| == 9 && |EOF| == 7 && EOF[0] == 0x0A
  {
  }

  /** A file cut at the end of a revision is found to start its cross-reference chain at that revision. */
  lemma StartXrefReadsBack(pdf: Bytes, r: Revision)
    requires RevisionOk(pdf, r) && StartXref(r) < UINT64_LIMIT
    ensures End(r) <= |pdf| && LastStartXref(pdf[..End(r)]) == Some(StartXref(r))
  {
    hide At, Entries, XrefText, RevisionOk, ObjectsText, Dec, LastStartXref;
    RevisionParts(pdf, r);
    var last := STARTXREF + [0x0A] + Dec(StartXref(r)) + EOF;
    var tail := Tail(r.dict, StartXref(r));
    AtSplit4(pdf, End(r) - |tail|, TRAILER, r.dict, [0x0A], last);
    StartXrefLetters();
    AtPrefix(pdf, End(r), End(r) - |last|, last);
    TailReadsBack(pdf[..End(r)], End(r) - |last|, StartXref(r));
  }

  lemma AtPrefix(pdf: Bytes, n: nat, off: int, piece: Bytes)
    requires At(pdf, off, piece) && off + |piece| <= n <= |pdf|
    ensures At(pdf[..n], off, piece)
  {
    assert pdf[..n][off..off + |piece|] == pdf[off..off + |piece|];
  }

  /** The whole of section 7.5.4 for every revision of a run, in the final file. */
  lemma CrossReferencesHold(doc: Bytes, out: Bytes, prev: nat, log: seq<Revision>, i: nat)
    requires RunOk(doc, out, prev, log) && i < |log|
    ensures var r := log[i]; var es := Entries(r.start, r.objects);
            && Ascending(es) && ReadXref(out, StartXref(r)).Some?
            && var runs := ReadXref(out, StartXref(r)).value.value;
            && Flatten(runs) == es
            && (forall k :: 0 <= k < |runs| ==> runs[k] != [] && Consecutive(runs[k]))
            && (forall k :: 0 <= k < |runs| - 1 ==> GapAfter(runs, k))
            && (forall e :: e in es ==> ReadsAs(out, e))
  {
    hide RevisionOk, Linked, Entries, Ascending, ReadXref, Runs, Flatten, Consecutive, GapAfter, ReadsAs, StartXref;
    var r := log[i];
    SectionReadsBack(out, r);
    EntriesAscending(r.start, r.objects);
    RunsAreMaximal(Entries(r.start, r.objects));
    forall e | e in Entries(r.start, r.objects) ensures ReadsAs(out, e) {
      EntryPointsAtHeader(out, r, e);
    }
  }

  lemma StartsInside(pdf: Bytes, r: Revision)
    requires RevisionOk(pdf, r)
    ensures r.start <= |pdf|
  {
    AtBounds(pdf, r.start, Text(r));
  }

  lemma LinkHolds(base: nat, prev: nat, log: seq<Revision>, i: nat)
    requires Linked(base, prev, log) && i < |log|
    ensures "/Prev" in log[i].trailer
    ensures log[i].start == (if i == 0 then base else End(log[i - 1]))
    ensures log[i].trailer["/Prev"] == Int(Signed64(if i == 0 then prev else StartXref(log[i - 1])))
  {
    hide End, StartXref;
    assert LinkedAt(base, prev, log, i);
    assert i > 0 ==> log[..i][i - 1] == log[i - 1];
  }

  /** Each trailer's /Prev is the startxref a reader finds in the file as it was before the revision: section
      7.5.6's chain, back to the document that came in. The number passes through a signed 64-bit one, so the chain
      holds exactly while what the reader finds is below 2^63. */
  lemma TrailersChain(doc: Bytes, out: Bytes, log: seq<Revision>, i: nat)
    requires LastStartXref(doc).Some? && RunOk(doc, out, LastStartXref(doc).value, log) && i < |log|
    requires i > 0 ==> StartXref(log[i - 1]) < UINT64_LIMIT
    ensures "/Prev" in log[i].trailer && log[i].start <= |out|
    ensures LastStartXref(if i == 0 then doc else out[..log[i].start]).Some?
    ensures var found := LastStartXref(if i == 0 then doc else out[..log[i].start]).value;
      && log[i].trailer["/Prev"] == Int(Signed64(found))
      && (log[i].trailer["/Prev"] == Int(found) <==> found < INT64_LIMIT)
  {
    LastStartXrefFits(if i == 0 then doc else out[..if log[i].start <= |out| then log[i].start else 0]);
    hide RevisionOk, LastStartXref, Base, StartXref, End, Linked, Signed64;
    LinkHolds(|Base(doc)|, LastStartXref(doc).value, log, i);
    StartsInside(out, log[i]);
    if i > 0 {
      StartXrefReadsBack(out, log[i - 1]);
    }
    Signed64IsExact(LastStartXref(if i == 0 then doc else out[..log[i].start]).value);
  }

  lemma LastStartXrefFits(pdf: Bytes)
    ensures LastStartXref(pdf).Some? ==> LastStartXref(pdf).value < UINT64_LIMIT
  {
    hide DecValue, DigitsEnd, SpacesEnd, RFind;
  }

  /** Any document, a complete one among them, whose last startxref is 2^63; more text may follow. */
  function FarDocument(body: Bytes, pad: Bytes): (r: Bytes) {
    Ascii("%PDF-1.7\n") + body + (STARTXREF + [0x0A] + Dec(INT64_LIMIT) + EOF) + pad
  }

  /** It is read as such, and signing it writes a negative /Prev. */
  lemma ChainBreaks(body: Bytes, pad: Bytes, out: Bytes, log: seq<Revision>)
    requires NoKeywordFrom(pad, 0) && RunOk(FarDocument(body, pad), out, INT64_LIMIT, log) && log != []
    ensures At(FarDocument(body, pad), 0, Ascii("%PDF-"))
    ensures LastStartXref(FarDocument(body, pad)) == Some(INT64_LIMIT)
    ensures "/Prev" in log[0].trailer && log[0].trailer["/Prev"] == Int(-0x8000_0000_0000_0000)
  {
    hide RevisionOk, LastStartXref, Base, StartXref, End, Linked, FarDocument, NoKeywordFrom;
    FarDocumentReads(body, pad);
    LinkHolds(|Base(FarDocument(body, pad))|, INT64_LIMIT, log, 0);
  }

  lemma FarDocumentReads(body: Bytes, pad: Bytes)
    requires NoKeywordFrom(pad, 0)
    ensures At(FarDocument(body, pad), 0, Ascii("%PDF-"))
    ensures LastStartXref(FarDocument(body, pad)) == Some(INT64_LIMIT)
  {
    hide LastStartXref, Dec, NoKeywordFrom;
    var head, tail := Ascii("%PDF-1.7\n") + body, STARTXREF + [0x0A] + Dec(INT64_LIMIT) + EOF;
    AtMiddle(head, tail, pad);
    assert FarDocument(body, pad)[0..5] == head[..5] == Ascii("%PDF-");
    StartXrefLetters();
    NoKeywordBehind(head + tail, pad);
    LastTailReadsBack(FarDocument(body, pad), |head|, INT64_LIMIT);
  }

  lemma NoKeywordBehind(text: Bytes, pad: Bytes)
    requires NoKeywordFrom(pad, 0)
    ensures NoKeywordFrom(text + pad, |text|)
  {
    hide At;
    forall i | |text| <= i < |text + pad| ensures !At(text + pad, i, STARTXREF) {
      if At(text + pad, i, STARTXREF) { KeywordInPad(text, pad, i); }
    }
  }

  lemma KeywordInPad(text: Bytes, pad: Bytes, i: nat)
    requires |text| <= i && At(text + pad, i, STARTXREF)
    ensures At(pad, i - |text|, STARTXREF)
  {
  }

  /** A signed file can be signed again: its last startxref is that of its last revision. */
  lemma OutputIsSignable(doc: Bytes, out: Bytes, prev: nat, log: seq<Revision>)
    requires RunOk(doc, out, prev, log) && log != [] && StartXref(log[|log| - 1]) < UINT64_LIMIT
    ensures LastStartXref(out) == Some(StartXref(log[|log| - 1]))
  {
    hide RevisionOk, LastStartXref, StartXref, Linked, Base, End;
    StartXrefReadsBack(out, log[|log| - 1]);
    assert out[..|out|] == out;
  }

  /** The revisions start on a new line right after the document: a line end is added exactly when it has none. */
  lemma DocumentThenRevisions(doc: Bytes, out: Bytes, prev: nat, log: seq<Revision>)
    requires RunOk(doc, out, prev, log) && log != []
    ensures doc <= out
    ensures var ended := doc != [] && (doc[|doc| - 1] == 0x0A || doc[|doc| - 1] == 0x0D);
      if ended then log[0].start == |doc| else log[0].start == |doc| + 1 <= |out| && out[|doc|] == 0x0A
  {
    hide RevisionOk, Linked;
    LinkHolds(|Base(doc)|, prev, log, 0);
  }
}
