/**
 The history of a signing run: the revisions appended to the input document, and the invariant that ties
 the history to the bytes of the file. Everything the run promises is a consequence of this invariant.
 */
module PadesLog {
  import opened ByteStrings
  import opened PdfByteRange
  import opened PdfPlaceholders
  import opened PdfTrailer
  import opened PdfRevision
  import opened PadesEvidence

  datatype Content =
      /** A signature or document timestamp: what was handed out for signing, what came back. */
    | Sealed(kind: SigKind, index: nat, extra: Bytes, range: ByteRange, signed: Bytes, contents: Bytes,
             name: Bytes, returned: Option<Evidence>)
      /** A document security store holding this evidence. */
    | Dss(evidence: Evidence)

  /** A revision as it stands in the file: objects in file order with their slots filled. */
  datatype Revision =
    Revision(start: nat, objects: seq<IncrementalObject>, trailer: Dict, dict: Bytes, content: Content)

  function Text(r: Revision): (t: Bytes) { RevisionText(r.start, r.objects, r.dict) }
  function End(r: Revision): (n: nat) { r.start + |Text(r)| }
  function StartXref(r: Revision): (n: nat) { XrefOffset(r.start, r.objects) }

  predicate HasSlots(r: Revision) { r.content.Sealed? && r.content.index < |r.objects| }

  /** The absolute offset of the signature dictionary. */
  function DictAt(r: Revision): (n: nat)
    requires HasSlots(r)
  {
    r.start + BodyOffset(r.objects, r.content.index)
  }

  function Open(r: Revision): (n: nat) requires HasSlots(r) { DictAt(r) + OpenAt(r.content.kind) }
  function Lt(r: Revision): (n: nat) requires HasSlots(r) { DictAt(r) + LtAt(r.content.kind) }
  function Gt(r: Revision): (n: nat) requires HasSlots(r) { DictAt(r) + GtAt(r.content.kind) }

  /** The contents slot after a write over the zero placeholder. */
  function HexSlot(contents: Bytes): (h: Bytes)
    requires 2 * |contents| <= CONTENTS_HEX_LEN
    ensures |h| == CONTENTS_HEX_LEN
  {
    HexUpper(contents) + Fill(CONTENTS_HEX_LEN - 2 * |contents|, 0x30)
  }

  /** Both slots of the dictionary are filled, the range with everything but the contents string. */
  predicate SlotsFilled(r: Revision) {
    && HasSlots(r) && Lt(r) < Gt(r) < End(r)
    && r.content.range == Compute(Lt(r), Gt(r), End(r))
    && |RangeNumbers(r.content.range)| + 2 <= BYTE_RANGE_SLOT_LEN && 2 * |r.content.contents| <= CONTENTS_HEX_LEN
    && r.objects[r.content.index].body == SigBody(r.content.kind, RangeField(r.content.range, BYTE_RANGE_SLOT_LEN),
                                                  HexSlot(r.content.contents), r.content.extra)
  }

  /** What was signed is the file up to the end of the revision, without the contents string. */
  predicate SignedOk(pdf: Bytes, r: Revision)
    requires SlotsFilled(r)
  {
    End(r) <= |pdf| && r.content.signed == pdf[..Lt(r)] + pdf[Gt(r) + 1..End(r)]
  }

  predicate RevisionOk(pdf: Bytes, r: Revision) {
    At(pdf, r.start, Text(r)) && AscendingIds(r.objects) && (r.content.Sealed? ==> SlotsFilled(r) && SignedOk(pdf, r))
  }

  /** The document as signing starts from it: with a line end. */
  function Base(doc: Bytes): (b: Bytes)
    ensures doc <= b
  {
    if doc == [] || (doc[|doc| - 1] != 0x0A && doc[|doc| - 1] != 0x0D) then doc + [0x0A] else doc
  }

  function FileEnd(base: nat, log: seq<Revision>): (n: nat) { if log == [] then base else End(log[|log| - 1]) }
  function LastXref(prev: nat, log: seq<Revision>): (n: nat) { if log == [] then prev else StartXref(log[|log| - 1]) }

  /** Revision i starts where the one before it ends, and its trailer links back to it. */
  predicate LinkedAt(base: nat, prev: nat, log: seq<Revision>, i: nat)
    requires i < |log|
  {
    && log[i].start == FileEnd(base, log[..i])
    && "/Prev" in log[i].trailer && log[i].trailer["/Prev"] == Int(Signed64(LastXref(prev, log[..i])))
  }

  predicate Linked(base: nat, prev: nat, log: seq<Revision>) {
    forall i :: 0 <= i < |log| ==> LinkedAt(base, prev, log, i)
  }

  predicate RunOk(doc: Bytes, pdf: Bytes, prev: nat, log: seq<Revision>) {
    && |pdf| == FileEnd(|Base(doc)|, log) && Base(doc) <= pdf
    && Linked(|Base(doc)|, prev, log)
    && forall i :: 0 <= i < |log| ==> RevisionOk(pdf, log[i])
  }

  lemma RunStarts(doc: Bytes, prev: nat)
    ensures RunOk(doc, Base(doc), prev, [])
  {
  }

  /** Appending bytes to the file disturbs no revision in it. */
  lemma RevisionStays(pdf: Bytes, more: Bytes, r: Revision)
    requires RevisionOk(pdf, r)
    ensures RevisionOk(pdf + more, r)
  {
    hide Text, SlotsFilled, HasSlots, Lt, Gt, AscendingIds;
    var longer := pdf + more;
    assert longer[r.start..r.start + |Text(r)|] == pdf[r.start..r.start + |Text(r)|];
    if r.content.Sealed? {
      SlotsOrder(r);
      assert longer[..Lt(r)] == pdf[..Lt(r)] && longer[Gt(r) + 1..End(r)] == pdf[Gt(r) + 1..End(r)];
    }
  }

  lemma SlotsOrder(r: Revision)
    requires SlotsFilled(r)
    ensures HasSlots(r) && Lt(r) < Gt(r) < End(r)
  {
  }

  /** One step of a run: a sound revision appended after the ones before it. */
  lemma RunAppends(doc: Bytes, pdf: Bytes, prev: nat, log: seq<Revision>, r: Revision)
    requires RunOk(doc, pdf, prev, log)
    requires r.start == |pdf| && "/Prev" in r.trailer && r.trailer["/Prev"] == Int(Signed64(LastXref(prev, log)))
    requires RevisionOk(pdf + Text(r), r)
    ensures RunOk(doc, pdf + Text(r), prev, log + [r])
  {
    hide RevisionOk, Text, Base;
    var grown, longer := log + [r], pdf + Text(r);
    forall i | 0 <= i < |grown| ensures RevisionOk(longer, grown[i]) {
      if i < |log| { RevisionStays(pdf, Text(r), log[i]); }
    }
    forall i | 0 <= i < |grown| ensures LinkedAt(|Base(doc)|, prev, grown, i) {
      if i < |log| {
        assert LinkedAt(|Base(doc)|, prev, log, i);
        assert grown[..i] == log[..i];
      } else {
        assert grown[..i] == log;
      }
    }
  }

  // ---- Trailers ----------------------------------------------------------------------------------

  /** The printed trailer is that of the record: it names the Catalog, its /Size covers every object number of
      the revision and never shrinks, and the document identity of the trailer before it is kept. */
  ghost predicate TrailerOk(unparse: Dict -> Bytes, root: ObjGen, before: Dict, objs: seq<IncrementalObject>, t: Dict,
                            dict: Bytes)
  {
    && dict == unparse(t)
    && "/Root" in t && t["/Root"] == Ref(root)
    && OldSize(t) >= OldSize(before)
    && (forall i :: 0 <= i < |objs| ==> objs[i].key.id < OldSize(t))
    && DocumentId(t).Some? && (DocumentId(before).Some? ==> DocumentId(t) == DocumentId(before))
  }

  ghost predicate TrailerOkAt(unparse: Dict -> Bytes, root: ObjGen, first: Dict, log: seq<Revision>, i: nat)
    requires i < |log|
  {
    TrailerOk(unparse, root, TrailerBefore(first, log[..i]), log[i].objects, log[i].trailer, log[i].dict)
  }

  function TrailerBefore(first: Dict, log: seq<Revision>): (t: Dict) {
    if log == [] then first else log[|log| - 1].trailer
  }

  ghost predicate TrailersOk(unparse: Dict -> Bytes, root: ObjGen, first: Dict, log: seq<Revision>) {
    forall i :: 0 <= i < |log| ==> TrailerOkAt(unparse, root, first, log, i)
  }

  lemma TrailersAppend(unparse: Dict -> Bytes, root: ObjGen, first: Dict, log: seq<Revision>, r: Revision)
    requires TrailersOk(unparse, root, first, log)
    requires TrailerOk(unparse, root, TrailerBefore(first, log), r.objects, r.trailer, r.dict)
    ensures TrailersOk(unparse, root, first, log + [r])
  {
    hide TrailerOk;
    var grown := log + [r];
    forall i | 0 <= i < |grown| ensures TrailerOkAt(unparse, root, first, grown, i) {
      if i < |log| {
        assert TrailerOkAt(unparse, root, first, log, i);
        assert grown[..i] == log[..i];
      } else {
        assert grown[..i] == log;
      }
    }
  }
}
