/** PAdES-LTA: the evidence of a finished run is in the file and under the last timestamp. */
module PadesLongTerm {
  import opened ByteStrings
  import opened Decimal
  import opened PdfPlaceholders
  import opened PdfTrailer
  import opened PdfXref
  import opened PdfRevision
  import opened PdfAssembly
  import opened PadesEvidence
  import opened PadesLog
  import opened PadesObjects
  import opened PadesStore
  import opened PadesOutcome
  import opened PadesTheorems

  /** Some evidence request of the run returned this blob. */
  ghost predicate Returned(log: seq<Revision>, blob: Bytes) {
    exists i :: 0 <= i < |log| && log[i].content.Sealed? && log[i].content.returned.Some?
                && InEvidence(log[i].content.returned.value, blob)
  }

  ghost predicate LtaRun(s: Services, given: Evidence, doc: Bytes, out: Bytes, prev: nat, log: seq<Revision>) {
    RunOk(doc, out, prev, log) && StepsOk(s, 3, log) && LengthOk(3, log) && Settled(3, given, log)
  }

  /** The run ends in a document timestamp that covers the whole file, right after a store; at most four
      document timestamps were made. */
  lemma LtaShape(s: Services, given: Evidence, doc: Bytes, out: Bytes, prev: nat, log: seq<Revision>)
    requires LtaRun(s, given, doc, out, prev, log)
    ensures 1 <= (|log| - 1) / 2 <= 4
    ensures var last, store := log[|log| - 1], log[|log| - 2];
            && store.content.Dss? && End(store) == last.start
            && last.content.Sealed? && last.content.kind == DocTimeStamp && End(last) == |out|
            && s.timestamp((|log| - 1) / 2, last.content.signed) == Some(last.content.contents)
    ensures forall i :: 1 <= i < |log| && i % 2 == 1 ==> log[i].content.Dss?
    ensures forall i :: 1 <= i < |log| && i % 2 == 0 ==> log[i].content.Sealed? && log[i].content.kind == DocTimeStamp
    ensures forall i :: 3 <= i < |log| && i % 2 == 1 ==> Grew(log[i - 2].content, log[i].content)
  {
    hide RevisionOk, SignatureFrom, HoldsEvidence, Grew, Gathered, Extends, Base, Text, StartXref;
    var n := |log| - 1;
    assert StepOk(s, 3, log, n) && StepOk(s, 3, log, n - 1);
    LinkHolds(|Base(doc)|, prev, log, n);
    forall i | 1 <= i < |log|
      ensures if i % 2 == 1 then log[i].content.Dss? else log[i].content.Sealed? && log[i].content.kind == DocTimeStamp
    {
      assert StepOk(s, 3, log, i);
    }
    forall i | 3 <= i < |log| && i % 2 == 1 ensures Grew(log[i - 2].content, log[i].content) {
      assert StepOk(s, 3, log, i);
    }
  }

  /** What the services were asked in a finished run, in order: the signer for the signed bytes of the first revision;
      from T on the signature value of the answer, a token for that value, and the answer with the token in it; and for
      each document timestamp a token for its own signed bytes. What came back is in the file. */
  lemma ServicesWereAsked(s: Services, level: int, log: seq<Revision>)
    requires 0 <= level <= 3 && StepsOk(s, level, log) && LengthOk(level, log)
    ensures log[0].content.Sealed? && log[0].content.kind.Signature? && s.sign(log[0].content.signed).Some?
    ensures var cms := s.sign(log[0].content.signed).value;
      && (level == 0 ==> log[0].content.contents == cms)
      && (level >= 1 ==>
        && s.signatureValue(cms).Some?
        && var value := s.signatureValue(cms).value;
        && s.timestamp(0, value).Some?
        && s.appendToken(cms, s.timestamp(0, value).value) == Some(log[0].content.contents)
        && (level >= 2 && s.hasEvidence ==>
          s.evidence(0, s.timestamp(0, value).value, value).Some? &&
          log[0].content.returned == s.evidence(0, s.timestamp(0, value).value, value)))
    ensures forall n :: 1 <= n < |log| && 2 * n < |log| ==> StampWasAsked(s, n, log[2 * n].content)
  {
    hide HoldsEvidence, Grew;
    assert StepOk(s, level, log, 0);
    forall n | 1 <= n < |log| && 2 * n < |log| ensures StampWasAsked(s, n, log[2 * n].content) {
      assert StepOk(s, level, log, 2 * n);
    }
  }

  predicate StampWasAsked(s: Services, n: nat, c: Content) {
    && c.Sealed? && c.kind.DocTimeStamp? && s.timestamp(n, c.signed) == Some(c.contents)
    && (s.hasEvidence ==> c.returned.Some? && c.returned == s.evidence(n, c.contents, c.signed))
  }

  /** The last store lies, byte for byte, inside what the last timestamp was issued for. */
  lemma StoreIsTimestamped(pdf: Bytes, store: Revision, last: Revision)
    requires RevisionOk(pdf, store) && RevisionOk(pdf, last) && last.content.Sealed? && End(store) <= last.start
    ensures End(store) <= |last.content.signed| && last.content.signed[store.start..End(store)] == Text(store)
  {
    hide Text, SlotsFilled, AscendingIds, LtAt, GtAt;
    SlotsOrder(last);
    assert End(store) <= Lt(last);
    var signed := last.content.signed;
    assert signed[store.start..End(store)] == pdf[store.start..End(store)];
  }

  /** A stream as a reader finds it: its length as a decimal number, the keyword, the blob and the closing keyword. */
  predicate StreamAt(pdf: Bytes, p: nat, blob: Bytes) {
    && At(pdf, p, Ascii("<</Length ")) && p + 10 <= |pdf|
    && var n := ReadNumber(pdf, p + 10);
    && n.Some? && n.value.value == |blob|
    && At(pdf, n.value.next, Ascii(">>\nstream\n")) && At(pdf, n.value.next + 10, blob)
    && At(pdf, n.value.next + 10 + |blob|, Ascii("\nendstream"))
  }

  lemma StreamReads(pdf: Bytes, p: nat, blob: Bytes)
    requires At(pdf, p, StreamObj(blob))
    ensures StreamAt(pdf, p, blob)
  {
    hide At, Dec, ReadNumber;
    var d := Dec(|blob|);
    AtSplit(pdf, p, Ascii("<</Length ") + d + Ascii(">>\nstream\n") + blob, Ascii("\nendstream"));
    AtSplit4(pdf, p, Ascii("<</Length "), d, Ascii(">>\nstream\n"), blob);
    var q := p + 10 + |d|;
    AtIndex(pdf, q, Ascii(">>\nstream\n"), 0);
    AtBounds(pdf, q, Ascii(">>\nstream\n"));
    hide Ascii;
    ReadDec(pdf, p + 10, |blob|);
  }

  /** The key has an entry, at whose offset its numbers and then the stream are read. */
  predicate LeadsTo(pdf: Bytes, es: seq<XrefEntry>, key: ObjGen, blob: Bytes) {
    exists e :: e in es && e.id == key.id && e.gen == key.gen && EntryHolds(pdf, e, blob)
  }

  predicate EntryHolds(pdf: Bytes, e: XrefEntry, blob: Bytes) {
    var h := ReadHeader(pdf, e.offset);
    h.Some? && h.value.id == e.id && h.value.gen == e.gen && StreamAt(pdf, h.value.next, blob)
  }

  /** A stream of a revision is found through its section, and before it. */
  lemma StreamInFile(pdf: Bytes, r: Revision, key: ObjGen, blob: Bytes)
    requires RevisionOk(pdf, r) && IncrementalObject(key, StreamObj(blob)) in r.objects
    ensures LeadsTo(pdf, Entries(r.start, r.objects), key, blob)
  {
    hide At, StreamObj, StreamAt, RevisionOk, Entries, ReadHeader, StartXref, Ascii;
    var k :| 0 <= k < |r.objects| && r.objects[k] == IncrementalObject(key, StreamObj(blob));
    var off := ObjectReadsBack(pdf, r, k);
    StreamReads(pdf, ReadHeader(pdf, off).value.next, blob);
    assert EntryHolds(pdf, XrefEntry(key.id, off, key.gen), blob);
  }

  /** What the last timestamp was issued for contains the store just as the file does. */
  lemma StoreIsSigned(pdf: Bytes, store: Revision, last: Revision)
    requires RevisionOk(pdf, store) && RevisionOk(pdf, last) && last.content.Sealed? && End(store) <= last.start
    requires store.content.Dss?
    ensures RevisionOk(last.content.signed, store)
  {
    hide Text, SlotsFilled, AscendingIds;
    StoreIsTimestamped(pdf, store, last);
  }

  /** Some offset of the revision holds the stream, in the file and in what was signed. */
  ghost predicate HeldBy(out: Bytes, signed: Bytes, store: Revision, blob: Bytes) {
    exists p :: store.start <= p <= End(store) - |blob| && StreamAt(out, p, blob) && StreamAt(signed, p, blob)
  }

  lemma StreamIsHeld(out: Bytes, signed: Bytes, r: Revision, blob: Bytes)
    requires RevisionOk(out, r) && RevisionOk(signed, r) && HasStream(r.objects, blob)
    ensures HeldBy(out, signed, r, blob)
  {
    hide At, StreamObj, StreamAt, RevisionOk, BodyOffset, StartXref;
    var k :| 0 <= k < |r.objects| && r.objects[k].body == StreamObj(blob);
    var p := r.start + BodyOffset(r.objects, k);
    StreamOffset(out, r, k, blob);
    StreamOffset(signed, r, k, blob);
    assert StreamAt(out, p, blob) && StreamAt(signed, p, blob);
  }

  lemma StreamOffset(pdf: Bytes, r: Revision, k: nat, blob: Bytes)
    requires RevisionOk(pdf, r) && k < |r.objects| && r.objects[k].body == StreamObj(blob)
    ensures var p := r.start + BodyOffset(r.objects, k); p + |blob| <= End(r) && StreamAt(pdf, p, blob)
  {
    hide At, ObjectsText, XrefText, Tail, BodyOffset, Entries, StreamAt, Ascii, Dec;
    RevisionParts(pdf, r);
    SigBodyAt(r.objects, k);
    AtTrans(pdf, r.start, ObjectsText(r.objects), BodyOffset(r.objects, k), StreamObj(blob));
    AtBounds(ObjectsText(r.objects), BodyOffset(r.objects, k), StreamObj(blob));
    StreamReads(pdf, r.start + BodyOffset(r.objects, k), blob);
  }

  lemma ReturnedIsHeld(e: Evidence, log: seq<Revision>, blob: Bytes)
    requires Gathered(e, log) && Returned(log, blob) && blob != []
    ensures InEvidence(e, blob)
  {
    var i :| 0 <= i < |log| && log[i].content.Sealed? && log[i].content.returned.Some?
             && InEvidence(log[i].content.returned.value, blob);
    assert Holds(e, log[i].content.returned.value);
  }

  /** Every non-empty blob returned for any token of the run stands in the last store, in the file and, at the same
      offset, in what the last timestamp was issued for. */
  lemma EvidenceIsCovered(s: Services, given: Evidence, doc: Bytes, out: Bytes, prev: nat, log: seq<Revision>,
                          blob: Bytes)
    requires LtaRun(s, given, doc, out, prev, log) && Returned(log, blob) && blob != []
    ensures log[|log| - 1].content.Sealed?
    ensures HeldBy(out, log[|log| - 1].content.signed, log[|log| - 2], blob)
  {
    hide RevisionOk, SignedBy, StampedBy, Grew, Gathered, Extends, Base, Text, StartXref, Returned, StreamObj, At,
         HasStream, InEvidence, Linked, HeldBy;
    LtaShape(s, given, doc, out, prev, log);
    var store, last := log[|log| - 2], log[|log| - 1];
    StoreIsSigned(out, store, last);
    ReturnedIsHeld(store.content.evidence, log, blob);
    assert StepOk(s, 3, log, |log| - 2);
    StreamIsHeld(out, last.content.signed, store, blob);
  }

  /** One of the keys leads to the stream of the blob. */
  predicate Reached(pdf: Bytes, es: seq<XrefEntry>, keys: seq<ObjGen>, blob: Bytes) {
    exists i :: 0 <= i < |keys| && LeadsTo(pdf, es, keys[i], blob)
  }

  predicate AllReached(pdf: Bytes, es: seq<XrefEntry>, keys: seq<ObjGen>, blobs: seq<Bytes>) {
    forall blob :: blob in blobs && blob != [] ==> Reached(pdf, es, keys, blob)
  }

  lemma ListedIsReached(pdf: Bytes, r: Revision, keys: seq<ObjGen>, blobs: seq<Bytes>)
    requires RevisionOk(pdf, r) && forall blob :: blob in blobs && blob != [] ==> Lists(keys, r.objects, blob)
    ensures AllReached(pdf, Entries(r.start, r.objects), keys, blobs)
  {
    hide RevisionOk, Entries, LeadsTo, StreamObj;
    forall blob | blob in blobs && blob != [] ensures Reached(pdf, Entries(r.start, r.objects), keys, blob) {
      var i :| 0 <= i < |keys| && IncrementalObject(keys[i], StreamObj(blob)) in r.objects;
      StreamInFile(pdf, r, keys[i], blob);
    }
  }

  /** Three lists, each of which leads to the non-empty blobs of its kind. */
  ghost predicate ListsReach(pdf: Bytes, r: Revision, lists: (seq<ObjGen>, seq<ObjGen>, seq<ObjGen>), e: Evidence) {
    var es := Entries(r.start, r.objects);
    && AllReached(pdf, es, lists.0, e.certs) && AllReached(pdf, es, lists.1, e.crls)
    && AllReached(pdf, es, lists.2, e.ocsps)
  }

  lemma StoreReaches(pdf: Bytes, plan: Plan, before: seq<Revision>, r: Revision)
    returns (lists: (seq<ObjGen>, seq<ObjGen>, seq<ObjGen>))
    requires RevisionOk(pdf, r) && r.content.Dss? && Made(plan, before, r)
    ensures r.objects != [] && r.objects[|r.objects| - 1].body == plan.forms.store(lists.0, lists.1, lists.2)
    ensures forall e, pdf' :: Holds(r.content.evidence, e) && RevisionOk(pdf', r) ==> ListsReach(pdf', r, lists, e)
  {
    hide RevisionOk, Entries, Lists, StoreMade, AllReached;
    var held := r.content.evidence;
    var certs, crls, ocsps := StoreListsEvidence(plan, before, r.objects, held);
    lists := (certs, crls, ocsps);
    forall e, pdf' | Holds(held, e) && RevisionOk(pdf', r) ensures ListsReach(pdf', r, lists, e) {
      ListedIsReached(pdf', r, certs, e.certs);
      ListedIsReached(pdf', r, crls, e.crls);
      ListedIsReached(pdf', r, ocsps, e.ocsps);
    }
  }

  lemma GivenIsHeld(given: Evidence, held: Evidence)
    requires Extends(given, held)
    ensures Holds(held, given)
  {
  }

  /** At LT and LTA, a reader who follows the lists of the last store finds the evidence that was given and all that was
      returned during the run, each kind through its own list. */
  lemma EvidenceIsStored(s: Services, level: int, given: Evidence, doc: Bytes, out: Bytes, prev: nat, plan: Plan,
                         log: seq<Revision>)
    returns (lists: (seq<ObjGen>, seq<ObjGen>, seq<ObjGen>))
    requires 2 <= level <= 3 && RunOk(doc, out, prev, log) && StepsOk(s, level, log) && LengthOk(level, log)
    requires Settled(level, given, log) && AllMade(plan, log)
    ensures var objs := log[if level == 2 then 1 else |log| - 2].objects;
      objs != [] && objs[|objs| - 1].body == plan.forms.store(lists.0, lists.1, lists.2)
    ensures ListsReach(out, log[if level == 2 then 1 else |log| - 2], lists, given)
    ensures forall i :: 0 <= i < |log| && log[i].content.Sealed? && log[i].content.returned.Some? ==>
      ListsReach(out, log[if level == 2 then 1 else |log| - 2], lists, log[i].content.returned.value)
  {
    hide RevisionOk, StepsOk, Made, ListsReach, Extends, Base, Linked, Holds;
    var k := if level == 2 then 1 else |log| - 2;
    assert Made(plan, log[..k], log[k]);
    GivenIsHeld(given, log[k].content.evidence);
    lists := StoreReaches(out, plan, log[..k], log[k]);
  }

  /** A reader who follows the lists of the last store finds every non-empty blob returned for any token of the run,
      each kind through its own list, in the file and in what the last timestamp was issued for. */
  lemma EvidenceIsListed(s: Services, given: Evidence, doc: Bytes, out: Bytes, prev: nat, plan: Plan,
                         log: seq<Revision>, i: nat)
    returns (lists: (seq<ObjGen>, seq<ObjGen>, seq<ObjGen>))
    requires LtaRun(s, given, doc, out, prev, log) && AllMade(plan, log)
    requires i < |log| && log[i].content.Sealed? && log[i].content.returned.Some?
    ensures var objs := log[|log| - 2].objects;
      objs != [] && objs[|objs| - 1].body == plan.forms.store(lists.0, lists.1, lists.2)
    ensures log[|log| - 1].content.Sealed?
    ensures ListsReach(out, log[|log| - 2], lists, log[i].content.returned.value)
    ensures ListsReach(log[|log| - 1].content.signed, log[|log| - 2], lists, log[i].content.returned.value)
  {
    hide RevisionOk, StepsOk, Made, ListsReach, Extends, Base, Linked;
    LtaShape(s, given, doc, out, prev, log);
    var store, last := log[|log| - 2], log[|log| - 1];
    StoreIsSigned(out, store, last);
    assert Made(plan, log[..|log| - 2], store);
    assert Holds(store.content.evidence, log[i].content.returned.value);
    lists := StoreReaches(out, plan, log[..|log| - 2], store);
  }
}
