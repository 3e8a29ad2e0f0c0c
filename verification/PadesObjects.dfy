/**
 The objects of a revision (src/lib/pades/PadesBuilder.cpp:427-466, 522-554, 572-596): the Catalog under its own
 number, new objects under the next free numbers, the widget that carries the field name, the form that lists the
 fields, and the store that lists the evidence streams.
 */
module PadesObjects {
  import opened ByteStrings
  import opened FieldNames
  import opened PdfPlaceholders
  import opened PdfTrailer
  import opened PdfRevision
  import opened PdfAssembly
  import opened PadesEvidence
  import opened PadesLog
  import opened PadesStore

  /** The bodies qpdf prints for the Catalog, the form, a widget and the security store with its three lists. */
  datatype Forms = Forms(catalog: (ObjGen, Option<ObjGen>) -> Bytes, acroform: seq<ObjGen> -> Bytes,
                         widget: (Bytes, ObjGen) -> Bytes, store: (seq<ObjGen>, seq<ObjGen>, seq<ObjGen>) -> Bytes)

  /** The input document and what qpdf reports about it. */
  datatype Input = Input(bytes: Bytes, readable: bool, root: ObjGen, nextId: nat, trailer: Dict, fields: seq<ObjGen>,
                         names: set<Bytes>, storeReadable: bool)

  /** What the revisions of a run are made from: the printing, the document, the field name that was asked for and the
      further entries of the signature dictionary. */
  datatype Plan = Plan(qpdf: Printer, forms: Forms, input: Input, main: Bytes, extra: Bytes)

  const TIMESTAMP_NAME: Bytes := Ascii("TimeStamp1")

  /** Where the numbering of the field names of each kind starts. */
  function BaseName(main: Bytes, kind: SigKind): (r: Bytes) {
    if kind == Signature then NameBase(main) else TIMESTAMP_NAME
  }

  function ExtraOf(plan: Plan, kind: SigKind): (r: Bytes) { if kind == Signature then plan.extra else [] }

  // ---- What a run has made so far ---------------------------------------------------------------

  /** How many objects the revisions have added to the document. */
  function Created(log: seq<Revision>): (n: nat) {
    if log == [] then 0 else
      var objs := log[|log| - 1].objects;
      Created(log[..|log| - 1]) + (if objs == [] then 0 else |objs| - 1)
  }

  function NextId(plan: Plan, log: seq<Revision>): (n: nat) { plan.input.nextId + Created(log) }

  /** A signature or timestamp, with its four objects. */
  predicate HasWidget(r: Revision) { r.content.Sealed? && |r.objects| == 4 }

  /** The document's fields, and the widgets of the run in order. */
  function Fields(plan: Plan, log: seq<Revision>): (r: seq<ObjGen>) {
    if log == [] then plan.input.fields else
      var before, last := Fields(plan, log[..|log| - 1]), log[|log| - 1];
      if HasWidget(last) then before + [last.objects[2].key] else before
  }

  /** The form that is in force. */
  function FormOf(log: seq<Revision>): (r: ObjGen) {
    if log == [] then ObjGen(0, 0)
    else if HasWidget(log[|log| - 1]) then log[|log| - 1].objects[3].key
    else FormOf(log[..|log| - 1])
  }

  /** The store that is in force, if the run has made one. */
  function StoreOf(log: seq<Revision>): (r: Option<ObjGen>) {
    if log == [] then None else
      var last := log[|log| - 1];
      if last.content.Dss? && last.objects != [] then Some(last.objects[|last.objects| - 1].key)
      else StoreOf(log[..|log| - 1])
  }

  // ---- The next revision ------------------------------------------------------------------------

  /** The Catalog first, then new objects under the next free numbers. */
  predicate NewObjects(plan: Plan, log: seq<Revision>, objs: seq<IncrementalObject>) {
    && objs != [] && objs[0].key == plan.input.root
    && forall k :: 1 <= k < |objs| ==> objs[k].key == ObjGen(NextId(plan, log) + k - 1, 0)
  }

  /** Catalog, signature dictionary, widget and form. The form lists all fields so far and the new widget; the Catalog
      names the form and the store in force. */
  predicate SigObjects(plan: Plan, log: seq<Revision>, name: Bytes, objs: seq<IncrementalObject>) {
    && |objs| == 4 && NewObjects(plan, log, objs)
    && objs[0].body == plan.forms.catalog(objs[3].key, StoreOf(log))
    && objs[2].body == plan.forms.widget(name, objs[1].key)
    && objs[3].body == plan.forms.acroform(Fields(plan, log) + [objs[2].key])
  }

  function Keys(objs: seq<IncrementalObject>): (r: seq<ObjGen>)
    ensures |r| == |objs|
  {
    seq(|objs|, i requires 0 <= i < |objs| => objs[i].key)
  }

  /** Catalog, streams and store, whose three lists are the keys of the streams of each kind; the Catalog names the form
      in force and the new store. */
  predicate StoreMade(plan: Plan, log: seq<Revision>, objs: seq<IncrementalObject>, e: Evidence) {
    var first := NextId(plan, log);
    var certs := StreamObjects(e.certs, first);
    var crls := StreamObjects(e.crls, first + |certs|);
    var ocsps := StreamObjects(e.ocsps, first + |certs| + |crls|);
    && NewObjects(plan, log, objs) && |objs| == |certs| + |crls| + |ocsps| + 2
    && objs[1..|objs| - 1] == certs + crls + ocsps
    && objs[|objs| - 1].body == plan.forms.store(Keys(certs), Keys(crls), Keys(ocsps))
    && objs[0].body == plan.forms.catalog(FormOf(log), Some(objs[|objs| - 1].key))
  }

  ghost predicate Made(plan: Plan, log: seq<Revision>, r: Revision) {
    match r.content
    case Sealed(kind, _, extra, _, _, _, name, _) =>
      SigObjects(plan, log, name, r.objects) && IsCandidate(BaseName(plan.main, kind), name)
      && extra == ExtraOf(plan, kind)
    case Dss(e) => StoreMade(plan, log, r.objects, e)
  }

  ghost predicate AllMade(plan: Plan, log: seq<Revision>) {
    forall i :: 0 <= i < |log| ==> Made(plan, log[..i], log[i])
  }

  lemma MadeAppend(plan: Plan, log: seq<Revision>, r: Revision)
    requires AllMade(plan, log) && Made(plan, log, r)
    ensures AllMade(plan, log + [r])
  {
    hide Made;
    var grown := log + [r];
    forall i | 0 <= i < |grown| ensures Made(plan, grown[..i], grown[i]) {
      assert grown[..i] == if i < |log| then log[..i] else log;
    }
  }

  /** What a completed signature or timestamp changes. */
  lemma AfterSealed(plan: Plan, log: seq<Revision>, r: Revision)
    requires r.content.Sealed? && |r.objects| == 4
    ensures NextId(plan, log + [r]) == NextId(plan, log) + 3
    ensures Fields(plan, log + [r]) == Fields(plan, log) + [r.objects[2].key]
    ensures FormOf(log + [r]) == r.objects[3].key && StoreOf(log + [r]) == StoreOf(log)
  {
    var grown := log + [r];
    assert grown[..|grown| - 1] == log && grown[|grown| - 1] == r;
  }

  /** What a completed store changes. */
  lemma AfterStore(plan: Plan, log: seq<Revision>, r: Revision)
    requires r.content.Dss? && r.objects != []
    ensures NextId(plan, log + [r]) == NextId(plan, log) + |r.objects| - 1
    ensures Fields(plan, log + [r]) == Fields(plan, log) && FormOf(log + [r]) == FormOf(log)
    ensures StoreOf(log + [r]) == Some(r.objects[|r.objects| - 1].key)
  {
    var grown := log + [r];
    assert grown[..|grown| - 1] == log && grown[|grown| - 1] == r;
  }

  // ---- What the store lists ---------------------------------------------------------------------

  /** A list names a stream of the blob. */
  predicate Lists(keys: seq<ObjGen>, objs: seq<IncrementalObject>, blob: Bytes) {
    exists i :: 0 <= i < |keys| && IncrementalObject(keys[i], StreamObj(blob)) in objs
  }

  lemma StreamsAreNamed(blobs: seq<Bytes>, first: nat, objs: seq<IncrementalObject>, blob: Bytes)
    requires blob in blobs && blob != [] && forall o :: o in StreamObjects(blobs, first) ==> o in objs
    ensures Lists(Keys(StreamObjects(blobs, first)), objs, blob)
  {
    hide StreamObj, StreamObjects;
    StreamsHold(blobs, first, blob);
    var streams := StreamObjects(blobs, first);
    var i :| 0 <= i < |streams| && streams[i].body == StreamObj(blob);
    assert streams[i] == IncrementalObject(Keys(streams)[i], StreamObj(blob));
  }

  lemma StreamsAreObjects(plan: Plan, log: seq<Revision>, objs: seq<IncrementalObject>, e: Evidence)
    requires StoreMade(plan, log, objs, e)
    ensures var first := NextId(plan, log);
      var certs := StreamObjects(e.certs, first);
      var crls := StreamObjects(e.crls, first + |certs|);
      && (forall o :: o in certs ==> o in objs) && (forall o :: o in crls ==> o in objs)
      && (forall o :: o in StreamObjects(e.ocsps, first + |certs| + |crls|) ==> o in objs)
  {
    hide StreamObjects, NextId, FormOf;
    var first := NextId(plan, log);
    var certs := StreamObjects(e.certs, first);
    var crls := StreamObjects(e.crls, first + |certs|);
    var ocsps := StreamObjects(e.ocsps, first + |certs| + |crls|);
    var inner := objs[1..|objs| - 1];
    forall o | o in inner ensures o in objs {
      var i :| 0 <= i < |inner| && inner[i] == o;
      assert objs[i + 1] == o;
    }
    assert forall o :: o in certs ==> o in certs + crls + ocsps;
  }

  /** Every non-empty certificate, revocation list and OCSP answer of the evidence is named in the list of its own kind,
      and those three lists are what the store prints. */
  lemma StoreListsEvidence(plan: Plan, log: seq<Revision>, objs: seq<IncrementalObject>, e: Evidence)
    returns (certs: seq<ObjGen>, crls: seq<ObjGen>, ocsps: seq<ObjGen>)
    requires StoreMade(plan, log, objs, e)
    ensures objs != [] && objs[|objs| - 1].body == plan.forms.store(certs, crls, ocsps)
    ensures forall blob :: blob in e.certs && blob != [] ==> Lists(certs, objs, blob)
    ensures forall blob :: blob in e.crls && blob != [] ==> Lists(crls, objs, blob)
    ensures forall blob :: blob in e.ocsps && blob != [] ==> Lists(ocsps, objs, blob)
  {
    hide StreamObjects, Lists, NextId, FormOf;
    var first := NextId(plan, log);
    StreamsAreObjects(plan, log, objs, e);
    var c := StreamObjects(e.certs, first);
    var r := StreamObjects(e.crls, first + |c|);
    certs, crls, ocsps := Keys(c), Keys(r), Keys(StreamObjects(e.ocsps, first + |c| + |r|));
    forall blob | blob in e.certs && blob != [] ensures Lists(certs, objs, blob) {
      StreamsAreNamed(e.certs, first, objs, blob);
    }
    forall blob | blob in e.crls && blob != [] ensures Lists(crls, objs, blob) {
      StreamsAreNamed(e.crls, first + |c|, objs, blob);
    }
    forall blob | blob in e.ocsps && blob != [] ensures Lists(ocsps, objs, blob) {
      StreamsAreNamed(e.ocsps, first + |c| + |r|, objs, blob);
    }
  }

  // ---- What the form lists ----------------------------------------------------------------------

  /** The document's fields come first, in their order; after them each widget of the run. */
  lemma {:induction false} FieldsHold(plan: Plan, log: seq<Revision>)
    ensures plan.input.fields <= Fields(plan, log)
    ensures forall i :: 0 <= i < |log| && HasWidget(log[i]) ==> log[i].objects[2].key in Fields(plan, log)
    ensures forall f :: f in Fields(plan, log) ==> f in plan.input.fields || IsWidget(log, f)
  {
    if log != [] {
      var n := |log| - 1;
      var init := log[..n];
      FieldsHold(plan, init);
      forall f | f in Fields(plan, log) ensures f in plan.input.fields || IsWidget(log, f) {
        if f in Fields(plan, init) {
          if i :| 0 <= i < n && HasWidget(init[i]) && init[i].objects[2].key == f { assert log[i] == init[i]; }
        } else {
          assert HasWidget(log[n]) && log[n].objects[2].key == f;
        }
      }
      forall i | 0 <= i < |log| && HasWidget(log[i]) ensures log[i].objects[2].key in Fields(plan, log) {
        if i < n { assert init[i] == log[i]; }
      }
    }
  }

  predicate IsWidget(log: seq<Revision>, f: ObjGen) {
    exists i :: 0 <= i < |log| && HasWidget(log[i]) && log[i].objects[2].key == f
  }

  /** The form in force was written by the last signature or timestamp, and lists Fields: the document's fields and the
      widget of every signature and timestamp of the run. The last Catalog names that form and the last store. */
  lemma {:induction false} FormIsComplete(plan: Plan, log: seq<Revision>) returns (k: nat)
    requires AllMade(plan, log) && log != [] && log[0].content.Sealed?
    ensures k < |log| && HasWidget(log[k]) && log[k].objects[3].key == FormOf(log)
    ensures log[k].objects[3].body == plan.forms.acroform(Fields(plan, log))
    ensures forall i :: k < i < |log| ==> !log[i].content.Sealed?
    ensures log[|log| - 1].objects != []
    ensures log[|log| - 1].objects[0].body == plan.forms.catalog(FormOf(log), StoreOf(log))
    decreases |log|
  {
    hide Made, Fields, FormOf, StoreOf;
    var n := |log| - 1;
    var init, last := log[..n], log[n];
    assert Made(plan, init, last);
    assert init + [last] == log;
    if last.content.Sealed? {
      k := n;
      SealedForm(plan, init, last);
    } else {
      StoreKeepsForm(plan, init, last);
      PrefixMade(plan, log, n);
      k := FormIsComplete(plan, init);
      assert forall i :: 0 <= i < n ==> init[i] == log[i];
    }
  }

  lemma SealedForm(plan: Plan, log: seq<Revision>, r: Revision)
    requires Made(plan, log, r) && r.content.Sealed?
    ensures HasWidget(r) && FormOf(log + [r]) == r.objects[3].key
    ensures r.objects[3].body == plan.forms.acroform(Fields(plan, log + [r]))
    ensures r.objects[0].body == plan.forms.catalog(FormOf(log + [r]), StoreOf(log + [r]))
  {
    hide Fields, FormOf, StoreOf, NextId, IsCandidate, ExtraOf;
    AfterSealed(plan, log, r);
  }

  lemma StoreKeepsForm(plan: Plan, log: seq<Revision>, r: Revision)
    requires Made(plan, log, r) && r.content.Dss?
    ensures r.objects != [] && Fields(plan, log + [r]) == Fields(plan, log) && FormOf(log + [r]) == FormOf(log)
    ensures r.objects[0].body == plan.forms.catalog(FormOf(log + [r]), StoreOf(log + [r]))
  {
    hide Fields, FormOf, StoreOf, NextId, StreamObjects, Keys;
    AfterStore(plan, log, r);
  }

  /** New objects of a later revision have greater numbers, so none replaces an earlier one. */
  lemma {:induction false} NumbersGrow(plan: Plan, log: seq<Revision>, i: nat, j: nat, k: nat, l: nat)
    requires AllMade(plan, log) && i < j < |log| && 1 <= k < |log[i].objects| && 1 <= l < |log[j].objects|
    ensures plan.input.nextId <= log[i].objects[k].key.id < log[j].objects[l].key.id
  {
    hide Made, Created;
    HasNumbers(plan, log[..i], log[i]);
    HasNumbers(plan, log[..j], log[j]);
    assert Made(plan, log[..i], log[i]) && Made(plan, log[..j], log[j]);
    CreatedGrows(log, i, j);
  }

  lemma HasNumbers(plan: Plan, log: seq<Revision>, r: Revision)
    ensures Made(plan, log, r) ==> NewObjects(plan, log, r.objects)
  {
    hide StreamObjects, NextId, IsCandidate, Keys, NewObjects;
  }

  lemma {:induction false} CreatedGrows(log: seq<Revision>, i: nat, j: nat)
    requires i < j <= |log|
    ensures Created(log[..i]) + |log[i].objects| - 1 <= Created(log[..j])
    decreases j
  {
    assert log[..j][..j - 1] == log[..j - 1];
    if i < j - 1 { CreatedGrows(log, i, j - 1); }
  }

  lemma PrefixMade(plan: Plan, log: seq<Revision>, n: nat)
    requires AllMade(plan, log) && n <= |log|
    ensures AllMade(plan, log[..n])
  {
    hide Made;
    forall i | 0 <= i < n ensures Made(plan, log[..n][..i], log[..n][i]) {
      assert log[..n][..i] == log[..i];
    }
  }
}
