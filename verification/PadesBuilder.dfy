/**
 PadesBuilder::SignPdf (src/lib/pades/PadesBuilder.cpp:317-644) as a state machine over one growing file.
 qpdf, the signer, the timestamp authority and the evidence source are arbitrary; a service that answers
 differently on every call is a function of the number of the call.
 */
module PadesBuilder {
  import opened ByteStrings
  import opened Decimal
  import opened FieldNames
  import opened PdfByteRange
  import opened PdfPlaceholders
  import opened PdfTrailer
  import opened PdfXref
  import opened PdfRevision
  import opened PdfAssembly
  import opened PadesEvidence
  import opened PadesLog
  import opened PadesObjects
  import opened PadesOutcome
  import opened PadesSealing
  import opened PadesStore

  /** A signature revision whose range is written and whose contents slot is still blank. */
  datatype Pending = Pending(objs: seq<IncrementalObject>, trailer: Dict, dict: Bytes, kind: SigKind, extra: Bytes,
                             name: Bytes, slots: Slots, range: ByteRange, startxref: nat)

  predicate PendingOk(before: Bytes, p: Pending) {
    && Blank(p.objs, 1, p.kind, p.extra) && AscendingIds(p.objs) && RangeFits(before, p.objs, p.dict, 1, p.kind)
    && p.range == RangeOf(before, p.objs, p.dict, 1, p.kind)
    && p.slots.lt == |before| + BodyOffset(p.objs, 1) + LtAt(p.kind)
    && p.slots.gt == |before| + BodyOffset(p.objs, 1) + GtAt(p.kind)
    && p.startxref == XrefOffset(|before|, p.objs)
  }

  predicate FreshName(taken: set<Bytes>, log: seq<Revision>, name: Bytes) {
    name !in taken && forall i :: 0 <= i < |log| && log[i].content.Sealed? ==> log[i].content.name != name
  }

  /** Names chosen during the run collide neither with the document's nor with each other, as they are given. */
  ghost predicate NamesDistinct(taken: set<Bytes>, log: seq<Revision>) {
    forall i :: 0 <= i < |log| && log[i].content.Sealed? ==> FreshName(taken, log[..i], log[i].content.name)
  }

  /** Field names of the run are new to the document, pairwise different, and reserved. */
  predicate NamesOk(taken: set<Bytes>, names: set<Bytes>, log: seq<Revision>) {
    && taken <= names
    && (forall i :: 0 <= i < |log| && log[i].content.Sealed? ==> log[i].content.name in names)
    && (forall i :: 0 <= i < |log| && log[i].content.Sealed? ==> FreshName(taken, log[..i], log[i].content.name))
  }

  /** The file with the pending revision at its end. */
  function Appended(before: Bytes, p: Pending): (r: Bytes)
    requires PendingOk(before, p)
  {
    WithRange(before, p.objs, p.dict, 1, p.kind, p.extra)
  }

  predicate SignatureParts(created: seq<IncrementalObject>, catalog: IncrementalObject, kind: SigKind, extra: Bytes) {
    && |created| == 3 && created[0].body == SigDictBody(kind, extra)
    && catalog.key.id < created[0].key.id < created[1].key.id < created[2].key.id
  }

  /** What AssembleRevision reports for the objects of a signature revision. */
  lemma LayoutOfSignature(base: nat, created: seq<IncrementalObject>, catalog: IncrementalObject, kind: SigKind,
                          extra: Bytes)
    requires SignatureParts(created, catalog, kind, extra)
    ensures var objs := [catalog] + created; var at := base + BodyOffset(objs, 1);
            && SortObjects(created + [catalog]) == objs && AscendingIds(objs) && Blank(objs, 1, kind, extra)
            && SlotsOf(base, objs, created[0].key)
                 == Slots(at + OpenAt(kind), at + CloseAt(kind), at + LtAt(kind), at + GtAt(kind))
  {
    hide SortObjects, SlotsOf, BodyOffset, SigDictBody, OpenAt;
    var objs := [catalog] + created;
    CatalogFirst(created, catalog);
    SlotsFound(base, objs, created[0].key, 1, 4, kind, extra);
    assert objs[..4] == objs;
  }

  /** A pending revision whose range is not written yet. */
  predicate Placed(before: Bytes, p: Pending) {
    && Blank(p.objs, 1, p.kind, p.extra) && AscendingIds(p.objs) && p.startxref == XrefOffset(|before|, p.objs)
    && var at := |before| + BodyOffset(p.objs, 1);
       p.slots == Slots(at + OpenAt(p.kind), at + CloseAt(p.kind), at + LtAt(p.kind), at + GtAt(p.kind))
  }

  lemma RangeWritten(before: Bytes, objs: seq<IncrementalObject>, dict: Bytes, kind: SigKind, extra: Bytes,
                     range: ByteRange, written: Bytes)
    requires Blank(objs, 1, kind, extra)
    requires var at := |before| + BodyOffset(objs, 1); var bytes := before + RevisionText(|before|, objs, dict);
             && at + GtAt(kind) < |bytes| && range == Compute(at + LtAt(kind), at + GtAt(kind), |bytes|)
             && WriteByteRange(bytes, at + OpenAt(kind), at + CloseAt(kind), range) == Some(written)
    ensures RangeFits(before, objs, dict, 1, kind) && range == RangeOf(before, objs, dict, 1, kind)
    ensures written == WithRange(before, objs, dict, 1, kind, extra)
  {
    hide RevisionText, SigDictBody, BodyOffset, OpenAt, RangeField, RangeNumbers, Patch;
  }

  /** The slot refuses a range only when the file has outgrown 64-bit offsets. */
  lemma RangeRefused(pdf: Bytes, open: int, close: int, lt: nat, gt: nat)
    requires 0 <= open && close == open + BYTE_RANGE_SLOT_LEN - 1 && close < |pdf| && lt < gt < |pdf|
    requires WriteByteRange(pdf, open, close, Compute(lt, gt, |pdf|)).None?
    ensures |pdf| >= UINT64_LIMIT
  {
    hide RangeNumbers;
    if |pdf| < UINT64_LIMIT { SlotAlwaysFits(Compute(lt, gt, |pdf|)); }
  }

  /** What the trailer of a laid-out revision promises, whatever its content. */
  lemma TrailerLinks(qpdf: Printer, base: nat, prev: nat, objs: seq<IncrementalObject>, root: ObjGen, trailer: Dict)
    ensures var t := TrailerOf(qpdf, base, prev, objs, root, trailer);
            && "/Prev" in t && t["/Prev"] == Int(Signed64(prev))
            && TrailerOk(qpdf.unparse, root, trailer, objs, t, qpdf.unparse(t))
  {
    hide Reworked, NextTrailer, Entries, XrefText, ObjectsText, MaxId;
    var maxId, body := MaxId(root.id, objs), ObjectsText(objs) + XrefText(Entries(base, objs));
    var id := qpdf.digest(qpdf.unparse(Reworked(trailer, root, maxId, prev)) + Dec(base) + body);
    TrailerPromises(trailer, root, maxId, prev, id);
  }

  /** Appends a laid-out signature revision and writes its byte range, after checking that the placeholders
      were found. */
  method WriteRange(before: Bytes, layout: Bytes, found: Pending) returns (ok: bool, pdf: Bytes, p: Pending)
    requires Placed(before, found) && layout == RevisionText(|before|, found.objs, found.dict)
    ensures ok ==> PendingOk(before, p) && pdf == Appended(before, p)
    ensures p == found.(range := p.range)
    ensures !ok ==> p == found && |before| + |layout| >= UINT64_LIMIT
  {
    hide RevisionText, WithRange, RangeOf, RangeFits, SigDictBody, BodyOffset, OpenAt, XrefOffset, WriteByteRange,
         AscendingIds;
    var slots := found.slots;
    ok, pdf, p := false, before, found;
    SlotInside(|before|, found.objs, found.dict, 1, found.kind, found.extra);
    if slots.lt == 0 || slots.gt <= slots.lt || slots.close <= slots.open { return; }
    pdf := pdf + layout;
    var range := Compute(slots.lt, slots.gt, |pdf|);
    var written := WriteByteRange(pdf, slots.open, slots.close, range);
    if written.None? {
      RangeRefused(pdf, slots.open, slots.close, slots.lt, slots.gt);
      return;
    }
    RangeWritten(before, found.objs, found.dict, found.kind, found.extra, range, written.value);
    ok, pdf, p := true, written.value, found.(range := range);
  }

  /** The completed revision of a pending one. */
  function SealedBy(before: Bytes, p: Pending, signed: Bytes, contents: Bytes,
                    returned: Option<Evidence>): (r: Revision)
    requires PendingOk(before, p) && 2 * |contents| <= CONTENTS_HEX_LEN
  {
    SealedRevision(before, p.objs, p.trailer, p.dict, 1, p.kind, p.extra, signed, contents, p.name, returned)
  }

  lemma SlotLength(pdf: Bytes, p: Pending, contents: Bytes)
    requires p.slots.gt - p.slots.lt == GtAt(p.kind) - LtAt(p.kind)
    requires WriteContentsHex(pdf, p.slots.lt, p.slots.gt, contents).Some?
    ensures 2 * |contents| <= CONTENTS_HEX_LEN
  {
  }

  /** The contents slot refuses only what is longer than it. */
  lemma ContentsRefused(before: Bytes, p: Pending, pdf: Bytes, contents: Bytes)
    requires PendingOk(before, p) && pdf == Appended(before, p)
    requires WriteContentsHex(pdf, p.slots.lt, p.slots.gt, contents).None?
    ensures !Fits(contents)
  {
    hide RangeFits, RangeOf, SigDictBody, BodyOffset, OpenAt, AscendingIds, XrefOffset, RevisionText;
    SlotInside(|before|, p.objs, p.dict, 1, p.kind, p.extra);
  }

  lemma SealedIsSound(before: Bytes, p: Pending, pdf: Bytes, contents: Bytes, returned: Option<Evidence>,
                      written: Bytes)
    requires PendingOk(before, p) && pdf == Appended(before, p) && 2 * |contents| <= CONTENTS_HEX_LEN
    requires WriteContentsHex(pdf, p.slots.lt, p.slots.gt, contents) == Some(written)
    ensures var r := SealedBy(before, p, Extract(pdf, p.range), contents, returned);
            && written == before + Text(r) && RevisionOk(before + Text(r), r) && StartXref(r) == p.startxref
            && r.start == |before| && r.trailer == p.trailer
            && r.content == Sealed(p.kind, 1, p.extra, p.range, Extract(pdf, p.range), contents, p.name, returned)
  {
    hide RangeOf, Blank, AscendingIds, RangeFits, WithRange, Extract, RevisionOk, Text, StartXref, XrefOffset,
         BodyOffset, LtAt, Patch, Filled;
    Seals(before, p.objs, p.trailer, p.dict, 1, p.kind, p.extra, contents, p.name, returned);
  }

  lemma NamesAppend(taken: set<Bytes>, names: set<Bytes>, log: seq<Revision>, r: Revision)
    requires NamesOk(taken, names, log)
    requires r.content.Sealed? ==> r.content.name in names && FreshName(taken, log, r.content.name)
    ensures NamesOk(taken, names, log + [r])
  {
    hide FreshName;
    var grown := log + [r];
    forall i | 0 <= i < |grown| && grown[i].content.Sealed?
      ensures FreshName(taken, grown[..i], grown[i].content.name)
    {
      assert grown[..i] == if i < |log| then log[..i] else log;
    }
  }

  lemma SealedTrailer(unparse: Dict -> Bytes, root: ObjGen, first: Dict, before: Bytes, p: Pending, pdf: Bytes,
                      contents: Bytes, returned: Option<Evidence>, log: seq<Revision>)
    requires PendingOk(before, p) && 2 * |contents| <= CONTENTS_HEX_LEN && TrailersOk(unparse, root, first, log)
    requires TrailerOk(unparse, root, TrailerBefore(first, log), p.objs, p.trailer, p.dict)
    ensures TrailersOk(unparse, root, first, log + [SealedBy(before, p, Extract(pdf, p.range), contents, returned)])
  {
    hide SigDictBody, AscendingIds, BodyOffset, TrailersOk, Extract, RangeOf, FilledBody, TrailerBefore;
    TrailersAppend(unparse, root, first, log, SealedBy(before, p, Extract(pdf, p.range), contents, returned));
  }

  /** Filling the slots changes none of the other objects. */
  lemma SealedIsMade(plan: Plan, log: seq<Revision>, before: Bytes, p: Pending, signed: Bytes, contents: Bytes,
                     returned: Option<Evidence>)
    requires PendingOk(before, p) && 2 * |contents| <= CONTENTS_HEX_LEN
    requires SigObjects(plan, log, p.name, p.objs) && IsCandidate(BaseName(plan.main, p.kind), p.name)
    requires p.extra == ExtraOf(plan, p.kind)
    ensures var r := SealedBy(before, p, signed, contents, returned);
      && Made(plan, log, r) && |r.objects| == 4
      && r.objects[2].key == p.objs[2].key && r.objects[3].key == p.objs[3].key
  {
    hide SigDictBody, AscendingIds, BodyOffset, RangeOf, FilledBody, IsCandidate, BaseName, Fields, StoreOf, NextId,
         ExtraOf;
  }

  /** Everything sealing a pending revision establishes. */
  lemma SealStep(qpdf: Printer, input: Input, prev: nat, names: set<Bytes>, log: seq<Revision>, before: Bytes,
                 p: Pending, pdf: Bytes, contents: Bytes, returned: Option<Evidence>, written: Bytes)
    requires PendingOk(before, p) && pdf == Appended(before, p) && RunOk(input.bytes, before, prev, log)
    requires "/Prev" in p.trailer && p.trailer["/Prev"] == Int(Signed64(LastXref(prev, log)))
    requires NamesOk(input.names, names, log) && p.name in names && FreshName(input.names, log, p.name)
    requires TrailersOk(qpdf.unparse, input.root, input.trailer, log)
    requires TrailerOk(qpdf.unparse, input.root, TrailerBefore(input.trailer, log), p.objs, p.trailer, p.dict)
    requires WriteContentsHex(pdf, p.slots.lt, p.slots.gt, contents) == Some(written)
    ensures 2 * |contents| <= CONTENTS_HEX_LEN
    ensures var r := SealedBy(before, p, Extract(pdf, p.range), contents, returned);
            && RunOk(input.bytes, written, prev, log + [r]) && LastXref(prev, log + [r]) == p.startxref
            && NamesOk(input.names, names, log + [r])
            && TrailersOk(qpdf.unparse, input.root, input.trailer, log + [r])
            && TrailerBefore(input.trailer, log + [r]) == p.trailer
            && r.content == Sealed(p.kind, 1, p.extra, p.range, Extract(pdf, p.range), contents, p.name, returned)
  {
    hide RunOk, Appended, NamesOk, FreshName, TrailersOk, TrailerOk, SealedBy, Extract, WriteContentsHex, RevisionOk,
         Text, StartXref;
    SlotLength(pdf, p, contents);
    var r := SealedBy(before, p, Extract(pdf, p.range), contents, returned);
    SealedIsSound(before, p, pdf, contents, returned, written);
    RunAppends(input.bytes, before, prev, log, r);
    NamesAppend(input.names, names, log, r);
    SealedTrailer(qpdf.unparse, input.root, input.trailer, before, p, pdf, contents, returned, log);
  }

  ghost predicate StoreParts(created: seq<IncrementalObject>, catalog: IncrementalObject, e: Evidence) {
    && HoldsEvidence(created, e) && AscendingIds(created)
    && forall i :: 0 <= i < |created| ==> catalog.key.id < created[i].key.id
  }

  lemma StoreIsComplete(e: Evidence, first: nat, last: IncrementalObject)
    requires last.key == ObjGen(first + |StoreStreams(e, first)|, 0)
    ensures HoldsEvidence(StoreStreams(e, first) + [last], e) && AscendingIds(StoreStreams(e, first) + [last])
    ensures forall i :: 0 <= i < |StoreStreams(e, first)| + 1 ==> (StoreStreams(e, first) + [last])[i].key.id >= first
  {
    hide StoreStreams, HasStream;
    var streams := StoreStreams(e, first);
    forall blob | InEvidence(e, blob) && blob != [] ensures HasStream(streams + [last], blob) {
      StoreHolds(e, first, blob);
      HasStreamLater([], streams, [last], blob);
      assert [] + streams + [last] == streams + [last];
    }
  }

  /** Everything appending a store revision establishes. */
  lemma StoreStep(qpdf: Printer, input: Input, prev: nat, names: set<Bytes>, log: seq<Revision>, pdf: Bytes,
                  created: seq<IncrementalObject>, catalog: IncrementalObject, e: Evidence, trailer: Dict, last: nat)
    requires RunOk(input.bytes, pdf, prev, log) && last == LastXref(prev, log) && NamesOk(input.names, names, log)
    requires TrailersOk(qpdf.unparse, input.root, input.trailer, log) && trailer == TrailerBefore(input.trailer, log)
    requires catalog.key == input.root && StoreParts(created, catalog, e)
    ensures SortObjects(created + [catalog]) == [catalog] + created
    ensures var objs := [catalog] + created; var t := TrailerOf(qpdf, |pdf|, last, objs, input.root, trailer);
            var r := Revision(|pdf|, objs, t, qpdf.unparse(t), Dss(e));
            && RunOk(input.bytes, pdf + RevisionText(|pdf|, objs, qpdf.unparse(t)), prev, log + [r])
            && LastXref(prev, log + [r]) == XrefOffset(|pdf|, objs) && NamesOk(input.names, names, log + [r])
            && TrailersOk(qpdf.unparse, input.root, input.trailer, log + [r])
            && TrailerBefore(input.trailer, log + [r]) == t && StoreOk(r, e)
  {
    hide RunOk, NamesOk, TrailersOk, TrailerOk, TrailerOf, RevisionText, SortObjects, XrefOffset, HasStream;
    var objs := [catalog] + created;
    CatalogFirst(created, catalog);
    TrailerLinks(qpdf, |pdf|, last, objs, input.root, trailer);
    var t := TrailerOf(qpdf, |pdf|, last, objs, input.root, trailer);
    var r := Revision(|pdf|, objs, t, qpdf.unparse(t), Dss(e));
    AtMiddle(pdf, Text(r), []);
    assert pdf + Text(r) + [] == pdf + Text(r);
    RunAppends(input.bytes, pdf, prev, log, r);
    NamesAppend(input.names, names, log, r);
    TrailersAppend(qpdf.unparse, input.root, input.trailer, log, r);
    forall blob | InEvidence(e, blob) && blob != [] ensures HasStream(objs, blob) {
      HasStreamLater([catalog], created, [], blob);
      assert [catalog] + created + [] == objs;
    }
  }

  /** The CMS for the signed bytes: signed, and from profile T on timestamped; or the call that was refused. */
  method MakeSignature(s: Services, level: int, signed: Bytes)
    returns (ok: bool, cms: Bytes, returned: Option<Evidence>, ghost call: Call)
    ensures ok ==> SignatureFrom(s, level, signed, cms, returned)
    ensures !ok ==> SigningCall(s, level, signed, call) && Refused(s, call)
  {
    ok, cms, returned, call := false, [], None, Sign(signed);
    var made := s.sign(signed);
    if made.None? { return; }
    if level < 1 { return true, made.value, None, call; }
    call := SignatureValue(made.value);
    var value := s.signatureValue(made.value);
    if value.None? { return; }
    call := Timestamp(0, value.value);
    var token := s.timestamp(0, value.value);
    if token.None? { return; }
    if level >= 2 && s.hasEvidence {
      call := EvidenceOf(0, token.value, value.value);
      returned := s.evidence(0, token.value, value.value);
      if returned.None? { return; }
    }
    call := AppendToken(made.value, token.value);
    var stamped := s.appendToken(made.value, token.value);
    if stamped.None? { return; }
    ok, cms := true, stamped.value;
  }

  // ---- Why a run fails ----------------------------------------------------------------------------

  /** The one thing that stopped a run. */
  datatype Cause =
    | NotStarted
    | TooLarge(size: nat)
    | SigningRefused(signed: Bytes, call: Call)
    | StampRefused(n: nat, signed: Bytes)
    | EvidenceRefused(n: nat)
    | TooLong(signed: Bytes, contents: Bytes)
    | StoreUnreadable
    | NotSettled

  /** The pending signature or timestamp is the next one of this run: its objects, name and trailer are those that
      follow from the plan and the revisions so far. */
  ghost predicate NextOf(plan: Plan, prev: nat, log: seq<Revision>, before: Bytes, p: Pending) {
    && RunOk(plan.input.bytes, before, prev, log)
    && SigObjects(plan, log, p.name, p.objs) && p.extra == ExtraOf(plan, p.kind)
    && IsCandidate(BaseName(plan.main, p.kind), p.name) && FreshName(plan.input.names, log, p.name)
    && p.trailer == NextTrailerOf(plan, prev, log, before, p.objs) && p.dict == plan.qpdf.unparse(p.trailer)
  }

  function NextTrailerOf(plan: Plan, prev: nat, log: seq<Revision>, before: Bytes, objs: seq<IncrementalObject>)
    : (t: Dict)
  {
    TrailerOf(plan.qpdf, |before|, LastXref(prev, log), objs, plan.input.root, TrailerBefore(plan.input.trailer, log))
  }

  /** The next revision of this run was laid out, and its signed bytes were these. */
  ghost predicate Asked(plan: Plan, prev: nat, log: seq<Revision>, kind: SigKind, signed: Bytes) {
    exists before, p :: AskedOf(plan, prev, log, before, p, signed) && p.kind == kind
  }

  ghost predicate AskedOf(plan: Plan, prev: nat, log: seq<Revision>, before: Bytes, p: Pending, signed: Bytes) {
    NextOf(plan, prev, log, before, p) && PendingOk(before, p) && signed == Extract(Appended(before, p), p.range)
  }

  /** The next revision of this run would have ended beyond 64-bit offsets. */
  ghost predicate Outgrown(plan: Plan, prev: nat, log: seq<Revision>, size: nat) {
    size >= UINT64_LIMIT && exists before, p :: OutgrownBy(plan, prev, log, before, p, size)
  }

  ghost predicate OutgrownBy(plan: Plan, prev: nat, log: seq<Revision>, before: Bytes, p: Pending, size: nat) {
    && NextOf(plan, prev, log, before, p) && Placed(before, p)
    && size == |before| + |RevisionText(|before|, p.objs, p.dict)|
  }

  /** The cause is true of this run, whose completed revisions are the log. */
  ghost predicate Stopped(plan: Plan, s: Services, level: int, prev: nat, log: seq<Revision>, c: Cause) {
    match c
    case NotStarted => false
    case TooLarge(size) => Outgrown(plan, prev, log, size)
    case SigningRefused(signed, call) =>
      log == [] && Asked(plan, prev, log, Signature, signed) && SigningCall(s, level, signed, call) && Refused(s, call)
    case StampRefused(n, signed) =>
      |log| == 2 * n && Asked(plan, prev, log, DocTimeStamp, signed) && Refused(s, Timestamp(n, signed))
    case EvidenceRefused(n) =>
      && |log| == 2 * n + 1 && s.hasEvidence && log[2 * n].content.Sealed?
      && Refused(s, EvidenceOf(n, log[2 * n].content.contents, log[2 * n].content.signed))
    case TooLong(signed, contents) =>
      && Asked(plan, prev, log, if log == [] then Signature else DocTimeStamp, signed) && !Fits(contents)
      && if log == [] then exists returned :: SignatureFrom(s, level, signed, contents, returned)
         else s.timestamp(|log| / 2, signed) == Some(contents)
    case StoreUnreadable => !plan.input.storeReadable
    case NotSettled => Unsettled(s, level, log)
  }

  /** The content came back with evidence that was not held. */
  predicate NewEvidence(held: Evidence, c: Content) { c.Sealed? && c.returned.Some? && !Holds(held, c.returned.value) }

  class Run {
    const plan: Plan
    const prev: nat
    var pdf: Bytes
    var previousStartXref: nat
    var trailer: Dict
    var nextId: nat
    var fields: seq<ObjGen>
    var acroform: ObjGen
    var store: Option<ObjGen>
    var names: set<Bytes>
    var evidence: Evidence
    ghost var log: seq<Revision>
    /** What stopped the run, once it has failed. */
    ghost var cause: Cause

    ghost predicate Valid()
      reads this
    {
      && RunOk(plan.input.bytes, pdf, prev, log) && previousStartXref == LastXref(prev, log)
      && plan.input.root.id < nextId && NamesOk(plan.input.names, names, log)
      && TrailersOk(plan.qpdf.unparse, plan.input.root, plan.input.trailer, log)
      && trailer == TrailerBefore(plan.input.trailer, log)
      && AllMade(plan, log) && nextId == NextId(plan, log)
      && fields == Fields(plan, log) && acroform == FormOf(log) && store == StoreOf(log)
    }

    /** Between the two patches of a signature revision appended to `before`. */
    ghost predicate Reserved(before: Bytes, p: Pending)
      reads this
    {
      && PendingOk(before, p) && pdf == Appended(before, p) && NextOf(plan, prev, log, before, p)
      && plan.input.root.id < nextId && NamesOk(plan.input.names, names, log) && p.name in names
      && TrailersOk(plan.qpdf.unparse, plan.input.root, plan.input.trailer, log) && trailer == p.trailer
      && AllMade(plan, log) && nextId == NextId(plan, log) + 3
      && fields == Fields(plan, log) + [p.objs[2].key] && acroform == p.objs[3].key && store == StoreOf(log)
    }

    constructor (plan: Plan, prev: nat, evidence: Evidence)
      requires plan.input.root.id < plan.input.nextId
      ensures Valid() && this.plan == plan && this.prev == prev && this.evidence == evidence
      ensures log == [] && pdf == Base(plan.input.bytes)
    {
      this.plan, this.prev := plan, prev;
      var input := plan.input;
      pdf, previousStartXref, trailer, nextId := Base(input.bytes), prev, input.trailer, input.nextId;
      fields, acroform, store, names := input.fields, ObjGen(0, 0), None, input.names;
      this.evidence, log, cause := evidence, [], NotStarted;
      RunStarts(input.bytes, prev);
    }

    method ReserveName(wanted: Bytes) returns (name: Bytes)
      requires NamesOk(plan.input.names, names, log)
      modifies this`names
      ensures names == old(names) + {name}
      ensures NamesOk(plan.input.names, names, log) && FreshName(plan.input.names, log, name)
      ensures IsCandidate(NameBase(wanted), name) && Picks(old(names), wanted, name)
    {
      ghost var suffix;
      name, suffix := UniqueFieldName(names, wanted);
      names := names + {name};
    }

    /** The signature dictionary, its widget, the form that lists it, and the rewritten Catalog. */
    method SignatureObjects(kind: SigKind, extra: Bytes, name: Bytes)
      returns (created: seq<IncrementalObject>, catalog: IncrementalObject)
      requires plan.input.root.id < nextId == NextId(plan, log)
      requires fields == Fields(plan, log) && store == StoreOf(log)
      modifies this`nextId, this`fields, this`acroform
      ensures |created| == 3 && SignatureParts(created, catalog, kind, extra)
      ensures SigObjects(plan, log, name, [catalog] + created)
      ensures nextId == old(nextId) + 3 && fields == old(fields) + [created[1].key] && acroform == created[2].key
    {
      hide SigDictBody, NextId, Fields, StoreOf;
      var sig, widget, form := ObjGen(nextId, 0), ObjGen(nextId + 1, 0), ObjGen(nextId + 2, 0);
      nextId, fields, acroform := nextId + 3, fields + [widget], form;
      created := [IncrementalObject(sig, SigDictBody(kind, extra)),
                  IncrementalObject(widget, plan.forms.widget(name, sig)),
                  IncrementalObject(form, plan.forms.acroform(fields))];
      catalog := IncrementalObject(plan.input.root, plan.forms.catalog(form, store));
    }

    /** Lays the objects out, appends them and writes the byte range. */
    method AppendReserved(kind: SigKind, extra: Bytes, name: Bytes, created: seq<IncrementalObject>,
                          catalog: IncrementalObject)
      returns (ok: bool, p: Pending)
      requires |created| == 3 && SignatureParts(created, catalog, kind, extra)
      modifies this`pdf, this`trailer
      ensures p.objs == [catalog] + created
      ensures !ok ==> pdf == old(pdf) && Placed(pdf, p) && |pdf| + |RevisionText(|pdf|, p.objs, p.dict)| >= UINT64_LIMIT
      ensures ok ==> PendingOk(old(pdf), p) && pdf == Appended(old(pdf), p)
      ensures p.kind == kind && p.extra == extra && p.name == name && trailer == p.trailer
      ensures p.trailer == TrailerOf(plan.qpdf, |old(pdf)|, previousStartXref, p.objs, plan.input.root, old(trailer))
      ensures p.dict == plan.qpdf.unparse(p.trailer)
    {
      hide PendingOk, Appended, SignatureParts, TrailerOf, RevisionText, SlotsOf, SortObjects, XrefOffset,
           Blank, BodyOffset, OpenAt, AscendingIds;
      var layout, next := AssembleRevision(plan.qpdf, |pdf|, previousStartXref, created + [catalog], plan.input.root,
                                           created[0].key, trailer);
      p := Pending([catalog] + created, next, plan.qpdf.unparse(next), kind, extra, name, layout.slots,
                   ByteRange(0, 0, 0, 0), layout.startxref);
      trailer := next;
      LayoutOfSignature(|pdf|, created, catalog, kind, extra);
      var bytes;
      ok, bytes, p := WriteRange(pdf, layout.bytes, p);
      if ok { pdf := bytes; }
    }

    /** Appends a signature revision with blank slots and writes its byte range. */
    method Reserve(kind: SigKind, extra: Bytes, wanted: Bytes) returns (ok: bool, p: Pending)
      requires Valid() && NameBase(wanted) == BaseName(plan.main, kind) && extra == ExtraOf(plan, kind)
      modifies this
      ensures ok ==> Reserved(old(pdf), p) && p.kind == kind && p.extra == extra
      ensures !ok ==> cause.TooLarge? && Outgrown(plan, prev, log, cause.size)
      ensures log == old(log) && evidence == old(evidence)
    {
      hide RunOk, PendingOk, Appended, SignatureParts, NamesOk, FreshName, TrailersOk, TrailerOf, AllMade, SigObjects,
           IsCandidate, Placed, RevisionText, Picks, NextId, Fields, StoreOf, FormOf, LastXref, TrailerBefore, ExtraOf;
      ghost var before := pdf;
      var name := ReserveName(wanted);
      var created, catalog := SignatureObjects(kind, extra, name);
      ok, p := AppendReserved(kind, extra, name, created, catalog);
      if !ok {
        cause := TooLarge(|before| + |RevisionText(|before|, p.objs, p.dict)|);
        assert OutgrownBy(plan, prev, log, before, p, cause.size);
      }
    }

    /** Writes the signature into its slot; the revision is then complete. */
    method Seal(p: Pending, contents: Bytes, ghost returned: Option<Evidence>, ghost before: Bytes) returns (ok: bool)
      requires Reserved(before, p)
      modifies this`pdf, this`previousStartXref, this`log
      ensures ok ==> Valid() && |log| == |old(log)| + 1 && log == old(log) + [log[|old(log)|]]
      ensures ok ==> log[|old(log)|].content
                       == Sealed(p.kind, 1, p.extra, p.range, Extract(old(pdf), p.range), contents, p.name, returned)
      ensures !ok ==> !Fits(contents) && log == old(log)
    {
      hide RunOk, PendingOk, Appended, NamesOk, FreshName, TrailersOk, TrailerOk, SealedBy, Extract,
           WriteContentsHex, LastXref, TrailerBefore, AllMade, Made, SigObjects, IsCandidate, TrailerOf, NextId, Fields,
           StoreOf, FormOf, ExtraOf;
      var written := WriteContentsHex(pdf, p.slots.lt, p.slots.gt, contents);
      if written.None? {
        ContentsRefused(before, p, pdf, contents);
        return false;
      }
      TrailerLinks(plan.qpdf, |before|, LastXref(prev, log), p.objs, plan.input.root,
                   TrailerBefore(plan.input.trailer, log));
      SealStep(plan.qpdf, plan.input, prev, names, log, before, p, pdf, contents, returned, written.value);
      SealedIsMade(plan, log, before, p, Extract(pdf, p.range), contents, returned);
      ghost var r := SealedBy(before, p, Extract(pdf, p.range), contents, returned);
      MadeAppend(plan, log, r);
      AfterSealed(plan, log, r);
      pdf, previousStartXref, log, ok := written.value, p.startxref, log + [r], true;
    }

    /** The evidence streams and the store that lists them. */
    method StoreObjects() returns (created: seq<IncrementalObject>, catalog: IncrementalObject)
      requires plan.input.root.id < nextId == NextId(plan, log) && acroform == FormOf(log)
      modifies this`nextId, this`store
      ensures catalog.key == plan.input.root && StoreParts(created, catalog, evidence)
      ensures StoreMade(plan, log, [catalog] + created, evidence)
      ensures created != [] && nextId == old(nextId) + |created| && store == Some(created[|created| - 1].key)
    {
      hide StreamObjects, Keys, NextId, FormOf, HoldsEvidence, AscendingIds;
      var first := nextId;
      var certs, crls, ocsps;
      certs, nextId := AppendStreams(evidence.certs, nextId);
      crls, nextId := AppendStreams(evidence.crls, nextId);
      ocsps, nextId := AppendStreams(evidence.ocsps, nextId);
      var ref := ObjGen(nextId, 0);
      nextId, store := nextId + 1, Some(ref);
      var body := plan.forms.store(Keys(certs), Keys(crls), Keys(ocsps));
      created := certs + crls + ocsps + [IncrementalObject(ref, body)];
      catalog := IncrementalObject(plan.input.root, plan.forms.catalog(acroform, store));
      StoreIsComplete(evidence, first, IncrementalObject(ref, body));
      assert ([catalog] + created)[1..|created|] == certs + crls + ocsps;
    }

    /** append_dss_revision. */
    method AppendStore() returns (ok: bool)
      requires Valid()
      modifies this
      ensures ok ==> Valid() && evidence == old(evidence)
      ensures ok ==> |log| == |old(log)| + 1 && log == old(log) + [log[|old(log)|]]
      ensures ok ==> StoreOk(log[|old(log)|], evidence)
      ensures !ok ==> !plan.input.storeReadable && log == old(log)
    {
      hide RunOk, NamesOk, TrailersOk, TrailerOk, TrailerOf, RevisionText, SlotsOf, SortObjects, XrefOffset,
           LastXref, TrailerBefore, StoreOk, StoreParts, AllMade, StoreMade, NextId, Fields, FormOf, StoreOf;
      if !plan.input.storeReadable { return false; }
      var created, catalog := StoreObjects();
      var layout, next := AssembleRevision(plan.qpdf, |pdf|, previousStartXref, created + [catalog], plan.input.root,
                                           ObjGen(0, 0), trailer);
      StoreStep(plan.qpdf, plan.input, prev, names, log, pdf, created, catalog, evidence, trailer, previousStartXref);
      ghost var r := Revision(|pdf|, [catalog] + created, next, plan.qpdf.unparse(next), Dss(evidence));
      MadeAppend(plan, log, r);
      AfterStore(plan, log, r);
      pdf, previousStartXref, trailer, log := pdf + layout.bytes, layout.startxref, next, log + [r];
      ok := true;
    }

    /** The main signature, with its timestamp from profile T on. */
    method SignMain(s: Services, level: int) returns (ok: bool)
      requires Valid() && log == []
      modifies this
      ensures ok ==> Valid() && |log| == 1 && StepsOk(s, level, log)
      ensures ok ==> Gathered(evidence, log) && Extends(old(evidence), evidence)
      ensures !ok ==> Stopped(plan, s, level, prev, log, cause)
    {
      hide Valid, RunOk, PendingOk, Appended, NamesOk, FreshName, TrailersOk, TrailerOk, SignatureFrom, Extract,
           Holds, Merge, SigningCall, Refused, Outgrown, AllMade, SigObjects, IsCandidate, Fits, NextOf;
      ghost var before := pdf;
      var p;
      ok, p := Reserve(Signature, plan.extra, plan.main);
      if !ok { return; }
      var signed := Extract(pdf, p.range);
      assert AskedOf(plan, prev, log, before, p, signed);
      var found, contents, returned, call := MakeSignature(s, level, signed);
      if !found {
        cause := SigningRefused(signed, call);
        return false;
      }
      if returned.Some? {
        MergeMeaning(evidence, returned.value);
        var merged, _ := MergeEvidence(evidence, returned.value);
        evidence := merged;
      }
      ok := Seal(p, contents, returned, before);
      if !ok { cause := TooLong(signed, contents); }
    }

    /** A store revision in its place among the revisions of the run. */
    method StoreNext(s: Services, level: int) returns (ok: bool)
      requires Valid() && |log| % 2 == 1 && StepsOk(s, level, log) && Gathered(evidence, log)
      requires |log| >= 3 ==> Grew(log[|log| - 2].content, Dss(evidence))
      modifies this
      ensures ok ==> Valid() && StepsOk(s, level, log) && Gathered(evidence, log) && evidence == old(evidence)
      ensures ok ==> |log| == |old(log)| + 1 && log[|log| - 1].content == Dss(evidence)
      ensures !ok ==> Stopped(plan, s, level, prev, log, cause)
    {
      hide Valid, Holds, SignedBy, StampedBy, Grew, HoldsEvidence, Gathered, StepsOk;
      ghost var before := log;
      ok := AppendStore();
      if ok {
        StepsAppend(s, level, before, log[|before|]);
        GatheredAppend(evidence, before, log[|before|]);
      } else {
        cause := StoreUnreadable;
      }
    }

    /** A document timestamp; `needs` tells whether its evidence was new. */
    method Stamp(s: Services, level: int, n: nat) returns (ok: bool, needs: bool)
      requires Valid() && n >= 1 && |log| == 2 * n && StepsOk(s, level, log) && Gathered(evidence, log)
      modifies this
      ensures ok ==> Valid() && StepsOk(s, level, log) && Gathered(evidence, log)
      ensures ok ==> |log| == |old(log)| + 1 && log == old(log) + [log[|old(log)|]]
      ensures ok ==> Extends(old(evidence), evidence)
      ensures ok ==> if needs then Size(old(evidence)) < Size(evidence) else evidence == old(evidence)
      ensures ok && needs ==> NewEvidence(old(evidence), log[|log| - 1].content)
      ensures !ok ==> Stopped(plan, s, level, prev, log, cause)
    {
      hide RunOk, PendingOk, Appended, NamesOk, FreshName, TrailersOk, TrailerOk, Extract, Holds, Merge, Gathered,
           StepsOk, Size, Outgrown, AllMade, IsCandidate, Fits, SignatureFrom, SigningCall, Unsettled, NextOf, NextId,
           Fields, FormOf, StoreOf;
      ghost var before, earlier := pdf, log;
      needs := false;
      var p;
      ok, p := Reserve(DocTimeStamp, [], TIMESTAMP_NAME);
      if !ok { return; }
      var signed := Extract(pdf, p.range);
      assert AskedOf(plan, prev, log, before, p, signed);
      var token := s.timestamp(n, signed);
      if token.None? {
        cause := StampRefused(n, signed);
        return false, false;
      }
      ghost var returned := if s.hasEvidence then s.evidence(n, token.value, signed) else None;
      ok := Seal(p, token.value, returned, before);
      if !ok {
        cause := TooLong(signed, token.value);
        return;
      }
      if s.hasEvidence {
        var actual := s.evidence(n, token.value, signed);
        if actual.None? {
          cause := EvidenceRefused(n);
          return false, false;
        }
        MergeMeaning(evidence, actual.value);
        GatheredExtends(evidence, Merge(evidence, actual.value), earlier);
        evidence, needs := MergeEvidence(evidence, actual.value);
      }
      StepsAppend(s, level, earlier, log[|earlier|]);
      GatheredAppend(evidence, earlier, log[|earlier|]);
    }

    /** Document timestamps until the evidence is stable, at most three of them renewals. */
    method AddTimestamps(s: Services, level: int, ghost given: Evidence) returns (ok: bool)
      requires Valid() && |log| == 2 && level >= 3 && StepsOk(s, level, log) && Gathered(evidence, log)
      requires log[1].content == Dss(evidence) && Extends(given, evidence)
      modifies this
      ensures ok ==> Valid() && StepsOk(s, level, log) && LengthOk(level, log) && Settled(level, given, log)
      ensures !ok ==> Stopped(plan, s, level, prev, log, cause)
    {
      hide Valid, StepsOk, Gathered, Size, Outgrown, Asked, Refused, Fits;
      var renewal := 0;
      while true
        invariant 0 <= renewal <= MAX_RENEWALS && Valid() && |log| == 2 + 2 * renewal
        invariant StepsOk(s, level, log) && Gathered(evidence, log) && Extends(given, evidence)
        invariant log[|log| - 1].content == Dss(evidence)
        decreases MAX_RENEWALS - renewal
      {
        ghost var held := evidence;
        var needs;
        ok, needs := Stamp(s, level, 1 + renewal);
        if !ok || !needs { return; }
        if renewal == MAX_RENEWALS {
          cause := NotSettled;
          return false;
        }
        assert Extends(held, evidence) && Size(held) < Size(evidence);
        ok := StoreNext(s, level);
        if !ok { return; }
        renewal := renewal + 1;
      }
    }
  }

  const PDF_HEADER: Bytes := Ascii("%PDF-")

  /** The header stands within the first 1024 bytes. */
  ghost predicate IsPdfHeader(doc: Bytes) {
    exists k :: 0 <= k && k + |PDF_HEADER| <= 1024 && At(doc, k, PDF_HEADER)
  }

  method FindPdfHeader(doc: Bytes) returns (found: bool)
    ensures found <==> IsPdfHeader(doc)
  {
    var limit := if |doc| < 1024 then |doc| else 1024;
    var off := 0;
    while off + |PDF_HEADER| <= limit
      invariant 0 <= off && forall k :: 0 <= k < off ==> !At(doc, k, PDF_HEADER)
    {
      if At(doc, off, PDF_HEADER) { return true; }
      off := off + 1;
    }
    found := false;
  }

  lemma HeaderStands(doc: Bytes)
    ensures IsPdfHeader(doc) ==> exists k :: 0 <= k <= 1019 && At(doc, k, Ascii("%PDF-"))
  {
    hide At;
  }

  datatype Params = Params(level: int, fieldName: Bytes, extra: Bytes, evidence: Evidence)

  /** What the caller can check beforehand; without it the run is refused. */
  ghost predicate Acceptable(s: Services, input: Input, params: Params) {
    && 0 <= params.level <= 3 && (params.level >= 1 ==> s.hasTimestamp)
    && IsPdfHeader(input.bytes) && input.readable && LastStartXref(input.bytes).Some?
  }

  function PlanOf(qpdf: Printer, forms: Forms, input: Input, params: Params): (plan: Plan) {
    Plan(qpdf, forms, input, params.fieldName, params.extra)
  }

  /** A finished run: the output is the input with the logged revisions appended, each of them as it should be. */
  ghost predicate Outcome(plan: Plan, s: Services, params: Params, out: Bytes, log: seq<Revision>) {
    && LastStartXref(plan.input.bytes).Some? && RunOk(plan.input.bytes, out, LastStartXref(plan.input.bytes).value, log)
    && NamesDistinct(plan.input.names, log) && AllMade(plan, log)
    && TrailersOk(plan.qpdf.unparse, plan.input.root, plan.input.trailer, log)
    && StepsOk(s, params.level, log) && LengthOk(params.level, log) && Settled(params.level, params.evidence, log)
  }

  /** A run that fails was not acceptable, or was stopped by the cause that is reported. */
  method SignPdf(qpdf: Printer, forms: Forms, s: Services, input: Input, params: Params)
    returns (out: Option<Bytes>, ghost log: seq<Revision>, ghost cause: Cause)
    requires input.root.id < input.nextId
    ensures out.Some? ==> Acceptable(s, input, params)
    ensures out.Some? ==> Outcome(PlanOf(qpdf, forms, input, params), s, params, out.value, log)
    ensures out.Some? ==> input.bytes <= out.value
    ensures out.Some? ==> 0 <= params.level <= 3 && (params.level >= 1 ==> s.hasTimestamp) && input.readable
    ensures out.Some? ==> exists k :: 0 <= k <= 1019 && At(input.bytes, k, Ascii("%PDF-"))
    ensures out.None? && Acceptable(s, input, params) ==>
      Stopped(PlanOf(qpdf, forms, input, params), s, params.level, LastStartXref(input.bytes).value, log, cause)
  {
    hide RunOk, NamesOk, TrailersOk, StepsOk, Gathered, Extends, IsPdfHeader, Stopped, AllMade, NamesDistinct, Fields,
         FormOf, StoreOf, NextId;
    out, log, cause := None, [], NotStarted;
    HeaderStands(input.bytes);
    var level := params.level;
    if level >= 1 && !s.hasTimestamp { return; }
    var header := FindPdfHeader(input.bytes);
    if !header || !input.readable { return; }
    var parsed, prev := ParseLastStartXref(input.bytes);
    if !parsed || level < 0 || level > 3 { return; }
    var run := new Run(PlanOf(qpdf, forms, input, params), prev, params.evidence);
    var ok := run.SignMain(s, level);
    log, cause := run.log, run.cause;
    if !ok { return; }
    if level >= 2 {
      ok := run.StoreNext(s, level);
      log, cause := run.log, run.cause;
      if !ok { return; }
    }
    if level >= 3 {
      ok := run.AddTimestamps(s, level, params.evidence);
      log, cause := run.log, run.cause;
      if !ok { return; }
    }
    NamesAreKept(input.names, run.names, run.log);
    RunKeepsDocument(input.bytes, run.pdf, prev, run.log);
    out := Some(run.pdf);
  }

  /** The document is a prefix of whatever a run makes of it. */
  lemma RunKeepsDocument(doc: Bytes, pdf: Bytes, prev: nat, log: seq<Revision>)
    requires RunOk(doc, pdf, prev, log)
    ensures doc <= pdf
  {
    hide Linked, RevisionOk;
  }

  lemma NamesAreKept(taken: set<Bytes>, names: set<Bytes>, log: seq<Revision>)
    requires NamesOk(taken, names, log)
    ensures NamesDistinct(taken, log)
  {
  }
}
