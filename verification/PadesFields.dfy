/**
 What a run leaves in the file besides the signed bytes: field names as they are stored, and cross-reference lines of
 the length that section 7.5.4 of ISO 32000-1 wants.
 */
module PadesFields {
  import opened ByteStrings
  import opened Decimal
  import opened FieldNames
  import opened PdfPlaceholders
  import opened PdfTrailer
  import opened PdfXref
  import opened PdfRevision
  import opened PadesLog
  import opened PadesObjects
  import opened PadesStore
  import opened PadesBuilder
  import opened PadesTheorems
  import opened PadesVerifier

  // ---- Field names ------------------------------------------------------------------------------

  predicate StoredApart(stored: Bytes -> Bytes, a: Content, b: Content) {
    a.Sealed? && b.Sealed? ==> stored(a.name) != stored(b.name)
  }

  /** As the file holds them, the names are new to the document and differ from each other. */
  predicate StoredDistinct(stored: Bytes -> Bytes, taken: set<Bytes>, log: seq<Revision>) {
    && (forall i :: 0 <= i < |log| && log[i].content.Sealed? ==> stored(log[i].content.name) !in taken)
    && (forall i, j :: 0 <= j < i < |log| ==> StoredApart(stored, log[j].content, log[i].content))
  }

  lemma TimestampNameIsPlain()
    ensures Plain(TIMESTAMP_NAME)
  {
  }

  lemma NameIsStored(stored: Bytes -> Bytes, plan: Plan, log: seq<Revision>, r: Revision)
    requires StoresPlain(stored) && Plain(NameBase(plan.main)) && Made(plan, log, r) && r.content.Sealed?
    ensures stored(r.content.name) == r.content.name
  {
    hide SigObjects, IsCandidate, Plain, ExtraOf;
    TimestampNameIsPlain();
    PlainCandidate(BaseName(plan.main, r.content.kind), r.content.name);
  }

  /** When the request is plain text, a run stores names that collide neither with the document's nor with each other.
      (FieldNames.StoredNameIsNewIff says that it must be.) */
  lemma PlainNamesAreDistinct(stored: Bytes -> Bytes, taken: set<Bytes>, plan: Plan, log: seq<Revision>)
    requires StoresPlain(stored) && Plain(NameBase(plan.main))
    requires NamesDistinct(taken, log) && AllMade(plan, log)
    ensures StoredDistinct(stored, taken, log)
  {
    hide Made, StoresPlain, Plain;
    forall i | 0 <= i < |log| && log[i].content.Sealed? ensures stored(log[i].content.name) !in taken {
      NameIsStored(stored, plan, log[..i], log[i]);
      assert FreshName(taken, log[..i], log[i].content.name);
    }
    forall i, j | 0 <= j < i < |log| ensures StoredApart(stored, log[j].content, log[i].content) {
      if log[i].content.Sealed? && log[j].content.Sealed? {
        NameIsStored(stored, plan, log[..i], log[i]);
        NameIsStored(stored, plan, log[..j], log[j]);
        assert FreshName(taken, log[..i], log[i].content.name);
        assert log[..i][j] == log[j];
      }
    }
  }

  /** The name that was asked for, "Signature1" if none was, or "TimeStamp1" for timestamps; or that with a suffix. */
  ghost predicate NamedFrom(asked: Bytes, kind: SigKind, name: Bytes) {
    if kind.DocTimeStamp? then IsNumbered(Ascii("TimeStamp1"), name)
    else if asked == [] then IsNumbered(Ascii("Signature1"), name)
    else IsNumbered(asked, name)
  }

  ghost predicate IsNumbered(base: Bytes, name: Bytes) {
    name == base || exists k :: k >= 2 && IsSuffixed(base, k, name)
  }

  lemma CandidateIsNamed(plan: Plan, kind: SigKind, name: Bytes)
    requires IsCandidate(BaseName(plan.main, kind), name)
    ensures NamedFrom(plan.main, kind, name)
  {
    hide Candidate, IsSuffixed, Ascii;
    var base := BaseName(plan.main, kind);
    if name != base {
      var k: nat :| k >= 2 && name == Candidate(base, k);
      CandidateReads(base, k);
    }
    assert IsNumbered(base, name);
  }

  /** In the final file, the widget of every signature and timestamp is found through the section of its revision; it
      carries a name of its kind and names the signature dictionary, which the object before it is. */
  lemma FieldIsWritten(doc: Bytes, out: Bytes, prev: nat, plan: Plan, log: seq<Revision>, i: nat)
    returns (off: nat, dict: nat)
    requires RunOk(doc, out, prev, log) && AllMade(plan, log) && i < |log| && log[i].content.Sealed?
    ensures |log[i].objects| == 4 && NamedFrom(plan.main, log[i].content.kind, log[i].content.name)
    ensures var sig, widget := log[i].objects[1].key, log[i].objects[2].key;
      && XrefEntry(widget.id, off, widget.gen) in Entries(log[i].start, log[i].objects)
      && ObjectAt(out, off, IncrementalObject(widget, plan.forms.widget(log[i].content.name, sig)))
      && XrefEntry(sig.id, dict, sig.gen) in Entries(log[i].start, log[i].objects)
      && ObjectAt(out, dict, IncrementalObject(sig, log[i].objects[1].body))
  {
    hide RevisionOk, Linked, Entries, ObjectAt, IsCandidate, NamedFrom, NewObjects, StoreOf, Fields, StartXref, Base;
    assert Made(plan, log[..i], log[i]);
    CandidateIsNamed(plan, log[i].content.kind, log[i].content.name);
    off := ObjectReadsBack(out, log[i], 2);
    dict := ObjectReadsBack(out, log[i], 1);
  }

  // ---- Cross-reference lines --------------------------------------------------------------------

  /** Every printed line of every revision has twenty bytes. */
  predicate TwentyByteLines(log: seq<Revision>) {
    forall i :: 0 <= i < |log| ==> LinesFit(log[i])
  }

  predicate LinesFit(r: Revision) { forall e :: e in Entries(r.start, r.objects) ==> |Line(e)| == 20 }

  /** The offset of the object that starts last in a revision. */
  function LastObjectAt(r: Revision): (n: nat)
    requires r.objects != []
  {
    r.start + |ObjectsText(r.objects[..|r.objects| - 1])|
  }

  lemma {:induction false} TextGrows(objs: seq<IncrementalObject>, k: nat, n: nat)
    requires k <= n <= |objs|
    ensures |ObjectsText(objs[..k])| <= |ObjectsText(objs[..n])|
    decreases n
  {
    hide ObjectText;
    if k < n {
      var t := objs[..n];
      assert t[..n - 1] == objs[..n - 1];
      TextGrows(objs, k, n - 1);
    }
  }

  lemma MadeIsNew(plan: Plan, log: seq<Revision>, i: nat)
    requires AllMade(plan, log) && i < |log|
    ensures NewObjects(plan, log[..i], log[i].objects) && log[i].objects != []
  {
    hide IsCandidate, StreamObjects;
    assert Made(plan, log[..i], log[i]);
  }

  /** The lines of one revision. */
  lemma RevisionLines(pdf: Bytes, plan: Plan, log: seq<Revision>, r: Revision)
    requires RevisionOk(pdf, r) && NewObjects(plan, log, r.objects)
    ensures LinesFit(r) <==> plan.input.root.gen < Pow10(5) && LastObjectAt(r) < Pow10(10)
  {
    hide RevisionOk, Entries, ObjectsText, Line, Pow10;
    var es, n := Entries(r.start, r.objects), |r.objects| - 1;
    ObjectHasEntry(pdf, r, 0);
    ObjectHasEntry(pdf, r, n);
    EntriesAscending(r.start, r.objects);
    SmallPowers();
    var first := XrefEntry(r.objects[0].key.id, r.start + |ObjectsText(r.objects[..0])|, r.objects[0].key.gen);
    var last := XrefEntry(r.objects[n].key.id, r.start + |ObjectsText(r.objects[..n])|, r.objects[n].key.gen);
    LineIsTwentyBytes(first);
    LineIsTwentyBytes(last);
    assert LinesFit(r) ==> |Line(first)| == 20 && |Line(last)| == 20;
    if plan.input.root.gen < Pow10(5) && LastObjectAt(r) < Pow10(10) {
      forall e | e in es ensures |Line(e)| == 20 {
        var k :| 0 <= k < |r.objects| && PointsAt(r.start, r.objects, e, k);
        TextGrows(r.objects, k, n);
        LineIsTwentyBytes(e);
      }
    }
  }

  lemma SmallPowers()
    ensures Pow10(5) == 100_000 && Pow10(10) == 10_000_000_000
  {
    assert Pow10(5) == 10 * Pow10(4) && Pow10(4) == 10 * Pow10(3);
    assert Pow10(10) == 10 * Pow10(9) && Pow10(9) == 10 * Pow10(8) && Pow10(8) == 10 * Pow10(7);
    assert Pow10(7) == 10 * Pow10(6) && Pow10(6) == 10 * Pow10(5);
  }

  lemma LastObjectInside(pdf: Bytes, r: Revision)
    requires RevisionOk(pdf, r) && r.objects != []
    ensures r.start <= LastObjectAt(r) < End(r) <= |pdf|
  {
    hide At, ObjectsText, Entries, XrefText, Tail;
    AtBounds(pdf, r.start, Text(r));
    TextGrows(r.objects, |r.objects| - 1, |r.objects|);
    assert r.objects[..|r.objects|] == r.objects;
    TailStartsWithT(r.dict, XrefOffset(r.start, r.objects));
  }

  lemma LastIsLast(doc: Bytes, out: Bytes, prev: nat, log: seq<Revision>, i: nat)
    requires RunOk(doc, out, prev, log) && i < |log| && log[i].objects != [] && log[|log| - 1].objects != []
    ensures LastObjectAt(log[i]) <= LastObjectAt(log[|log| - 1]) < |out|
  {
    hide RevisionOk, Base, Linked, ObjectsText, Text;
    var n := |log| - 1;
    LastObjectInside(out, log[n]);
    if i < n {
      LastObjectInside(out, log[i]);
      EndsIncrease(|Base(doc)|, prev, log, i, n);
    }
  }

  lemma LinesOfOne(doc: Bytes, out: Bytes, prev: nat, plan: Plan, log: seq<Revision>, i: nat)
    requires RunOk(doc, out, prev, log) && AllMade(plan, log) && i < |log|
    ensures log[i].objects != [] && log[|log| - 1].objects != []
    ensures LinesFit(log[i]) <==> plan.input.root.gen < Pow10(5) && LastObjectAt(log[i]) < Pow10(10)
    ensures LastObjectAt(log[i]) <= LastObjectAt(log[|log| - 1]) < |out|
  {
    hide AllMade, RevisionOk, LinesFit, Base, NewObjects, Pow10, Linked, LastObjectAt, Text;
    MadeIsNew(plan, log, i);
    MadeIsNew(plan, log, |log| - 1);
    RevisionLines(out, plan, log[..i], log[i]);
    LastIsLast(doc, out, prev, log, i);
  }

  /** All lines of a run have twenty bytes exactly when the Catalog's generation has at most five digits and the last
      object of the file starts below 10^10; a file of at most that size is short enough. */
  lemma RunLines(doc: Bytes, out: Bytes, prev: nat, plan: Plan, log: seq<Revision>)
    requires RunOk(doc, out, prev, log) && AllMade(plan, log) && log != []
    ensures log[|log| - 1].objects != []
    ensures TwentyByteLines(log) <==> plan.input.root.gen < 100_000 && LastObjectAt(log[|log| - 1]) < 10_000_000_000
    ensures |out| <= 10_000_000_000 ==> LastObjectAt(log[|log| - 1]) < 10_000_000_000
  {
    hide RunOk, AllMade, LinesFit, Pow10, LastObjectAt;
    SmallPowers();
    var n := |log| - 1;
    LinesOfOne(doc, out, prev, plan, log, n);
    forall i | 0 <= i < |log|
      ensures plan.input.root.gen < 100_000 && LastObjectAt(log[n]) < 10_000_000_000 ==> LinesFit(log[i])
    {
      LinesOfOne(doc, out, prev, plan, log, i);
    }
  }

  /** An entry at 10^10 prints a line that is too long. */
  lemma LongLine()
    ensures |Line(XrefEntry(1, 10_000_000_000, 0))| != 20
  {
    hide Line, Pow10;
    SmallPowers();
    LineIsTwentyBytes(XrefEntry(1, 10_000_000_000, 0));
  }
}
