/** AssembleRevision (src/lib/pades/PadesBuilder.cpp:196-274): the loop that lays a revision out. */
module PdfAssembly {
  import opened ByteStrings
  import opened Decimal
  import opened PdfPlaceholders
  import opened PdfRevision
  import opened PdfTrailer
  import opened PdfXref

  /** The parts of qpdf the layout needs: how a dictionary is printed, and the 16-byte revision digest. */
  datatype Printer = Printer(unparse: Dict -> Bytes, digest: Bytes -> Bytes)

  datatype RevisionLayout = RevisionLayout(bytes: Bytes, slots: Slots, startxref: nat)

  /** The slots found after laying out `objs`, every search being made in the text so far. */
  function SlotsOf(base: nat, objs: seq<IncrementalObject>, sig: ObjGen): (r: Slots) {
    if |objs| == 0 then Slots(0, 0, 0, 0) else
      var init, last := objs[..|objs| - 1], objs[|objs| - 1];
      var found := SlotsOf(base, init, sig);
      if last.key != sig then found
      else Locate(ObjectsText(objs), base, |ObjectsText(init)| + |Header(last.key)|, found)
  }

  function MaxId(least: nat, objs: seq<IncrementalObject>): (r: nat)
    ensures r >= least && forall i :: 0 <= i < |objs| ==> r >= objs[i].key.id
  {
    if |objs| == 0 then least else
      var m := MaxId(least, objs[..|objs| - 1]);
      if objs[|objs| - 1].key.id > m then objs[|objs| - 1].key.id else m
  }

  /** The trailer dictionary of a revision with these objects. */
  function TrailerOf(qpdf: Printer, base: nat, prev: nat, objs: seq<IncrementalObject>, root: ObjGen, trailer: Dict)
    : (r: Dict)
  {
    var maxId := MaxId(root.id, objs);
    var body := ObjectsText(objs) + XrefText(Entries(base, objs));
    var seed := qpdf.unparse(Reworked(trailer, root, maxId, prev)) + Dec(base) + body;
    NextTrailer(trailer, root, maxId, prev, qpdf.digest(seed))
  }

  /** Equal but for the identity. */
  predicate SameButId(a: Dict, b: Dict) { a - {"/ID"} == b - {"/ID"} }

  /** The second identity of a revision is the digest of the trailer without it, the offset of the revision in decimal,
      and all of its text before the trailer. */
  lemma RevisionIdCovers(qpdf: Printer, base: nat, prev: nat, objs: seq<IncrementalObject>, root: ObjGen, trailer: Dict)
    returns (plain: Dict, n: nat)
    ensures var t := TrailerOf(qpdf, base, prev, objs, root, trailer);
      var text := RevisionText(base, objs, qpdf.unparse(t));
      && SameButId(plain, t) && n <= |text| && At(text, n, Ascii("trailer\n"))
      && "/ID" in t && t["/ID"].Arr? && |t["/ID"].items| == 2
      && t["/ID"].items[1] == Str(qpdf.digest(qpdf.unparse(plain) + Dec(base) + text[..n]))
  {
    hide ObjectsText, XrefText, Entries, Dec, MaxId, Reworked;
    plain := Reworked(trailer, root, MaxId(root.id, objs), prev);
    var t := TrailerOf(qpdf, base, prev, objs, root, trailer);
    var front := ObjectsText(objs) + XrefText(Entries(base, objs));
    n := |front|;
    var text := RevisionText(base, objs, qpdf.unparse(t));
    var tail := Tail(qpdf.unparse(t), XrefOffset(base, objs));
    assert text == front + tail;
    assert text[..n] == front;
    AtMiddle(front, tail, []);
    assert front + tail + [] == text;
    AtSplit4(text, n, TRAILER, qpdf.unparse(t), [0x0A], STARTXREF + [0x0A] + Dec(XrefOffset(base, objs)) + EOF);
  }

  /** The object loop. */
  method LayOut(base: nat, objects: seq<IncrementalObject>, root: ObjGen, sig: ObjGen)
    returns (bytes: Bytes, offsets: seq<XrefEntry>, slots: Slots, maxId: nat)
    ensures bytes == ObjectsText(objects) && offsets == Entries(base, objects)
    ensures slots == SlotsOf(base, objects, sig) && maxId == MaxId(root.id, objects)
  {
    hide Locate, Header, Emplace;
    bytes, offsets, slots, maxId := [], [], Slots(0, 0, 0, 0), root.id;
    var k := 0;
    while k < |objects|
      invariant 0 <= k <= |objects|
      invariant bytes == ObjectsText(objects[..k]) && offsets == Entries(base, objects[..k])
      invariant slots == SlotsOf(base, objects[..k], sig) && maxId == MaxId(root.id, objects[..k])
    {
      var o := objects[k];
      assert objects[..k + 1][..k] == objects[..k];
      offsets := Emplace(offsets, XrefEntry(o.key.id, base + |bytes|, o.key.gen));
      if o.key.id > maxId { maxId := o.key.id; }
      var body := |bytes| + |Header(o.key)|;
      bytes := bytes + (Header(o.key) + o.body + ENDOBJ);
      if o.key == sig { slots := Locate(bytes, base, body, slots); }
      k := k + 1;
    }
    assert objects[..k] == objects;
  }

  method AssembleRevision(qpdf: Printer, base: nat, prev: nat, input: seq<IncrementalObject>, root: ObjGen, sig: ObjGen,
                          trailer: Dict)
    returns (layout: RevisionLayout, next: Dict)
    ensures var objs := SortObjects(input);
      && next == TrailerOf(qpdf, base, prev, objs, root, trailer)
      && layout.bytes == RevisionText(base, objs, qpdf.unparse(next))
      && layout.slots == SlotsOf(base, objs, sig) && layout.startxref == XrefOffset(base, objs)
  {
    hide SortObjects, ObjectsText, SlotsOf, MaxId, Entries, XrefText, Dec, Reworked, NextTrailer;
    var objects := SortObjects(input);
    var bytes, offsets, slots, maxId := LayOut(base, objects, root, sig);
    var xrefOffset := base + |bytes|;
    bytes := AppendXrefSubsections(bytes, offsets);
    var idMaterial := qpdf.unparse(Reworked(trailer, root, maxId, prev)) + Dec(base) + bytes;
    next := NextTrailer(trailer, root, maxId, prev, qpdf.digest(idMaterial));
    bytes := bytes + Tail(qpdf.unparse(next), xrefOffset);
    layout := RevisionLayout(bytes, slots, xrefOffset);
  }

  /** The layout reports the placeholders of the signature object, wherever sorting has put it. */
  lemma {:induction false} SlotsFound(base: nat, objs: seq<IncrementalObject>, sig: ObjGen, k: nat, n: nat,
                                      kind: SigKind, extra: Bytes)
    requires k < n <= |objs| && objs[k].key == sig && objs[k].body == SigDictBody(kind, extra)
    requires forall i :: k < i < n ==> objs[i].key != sig
    ensures var p := base + BodyOffset(objs, k);
            SlotsOf(base, objs[..n], sig)
              == Slots(p + OpenAt(kind), p + CloseAt(kind), p + LtAt(kind), p + GtAt(kind))
    decreases n
  {
    hide ObjectsText, Header, SigDictBody, Locate, OpenAt;
    assert objs[..n][..n - 1] == objs[..n - 1];
    if n > k + 1 {
      SlotsFound(base, objs, sig, k, n - 1, kind, extra);
    } else {
      SigBodyAt(objs[..n], k);
      assert objs[..n][..k] == objs[..k];
      Located(ObjectsText(objs[..n]), base, BodyOffset(objs, k), kind, extra, SlotsOf(base, objs[..k], sig));
    }
  }

  /** An object's body lies after its header. */
  lemma SigBodyAt(objs: seq<IncrementalObject>, k: nat)
    requires k < |objs|
    ensures At(ObjectsText(objs), BodyOffset(objs, k), objs[k].body)
  {
    hide ObjectsText, Header, At;
    ObjectTextAt(objs, k);
    AtSplit3(ObjectsText(objs), |ObjectsText(objs[..k])|, Header(objs[k].key), objs[k].body, ENDOBJ);
  }
}
