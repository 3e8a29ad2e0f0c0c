/**
 One incremental revision (src/lib/pades/PadesBuilder.cpp:77-82, 196-274): the objects, the
 cross-reference section, the trailer, and where the signature placeholders ended up.
 Bodies that qpdf prints are opaque octet strings here.
 */
module PdfRevision {
  import opened ByteStrings
  import opened Decimal
  import opened PdfTrailer
  import opened PdfXref

  datatype IncrementalObject = IncrementalObject(key: ObjGen, body: Bytes)

  /** " obj" and a newline. */
  const OBJ: Bytes := [0x20, 0x6F, 0x62, 0x6A, 0x0A]
  /** A newline, "endobj", a newline. */
  const ENDOBJ: Bytes := [0x0A, 0x65, 0x6E, 0x64, 0x6F, 0x62, 0x6A, 0x0A]

  function Header(key: ObjGen): (r: Bytes) { Dec(key.id) + SPACE + Dec(key.gen) + OBJ }

  function ObjectText(o: IncrementalObject): (r: Bytes) { Header(o.key) + o.body + ENDOBJ }

  function ObjectsText(objs: seq<IncrementalObject>): (r: Bytes) {
    if |objs| == 0 then [] else ObjectsText(objs[..|objs| - 1]) + ObjectText(objs[|objs| - 1])
  }

  // ---- Ordering ------------------------------------------------------------------------------

  predicate KeyLess(a: ObjGen, b: ObjGen) { a.id < b.id || (a.id == b.id && a.gen < b.gen) }

  function Insert(sorted: seq<IncrementalObject>, o: IncrementalObject): (r: seq<IncrementalObject>) {
    if |sorted| == 0 || !KeyLess(o.key, sorted[|sorted| - 1].key) then sorted + [o]
    else Insert(sorted[..|sorted| - 1], o) + [sorted[|sorted| - 1]]
  }

  /** std::sort by object key. */
  function SortObjects(objs: seq<IncrementalObject>): (r: seq<IncrementalObject>) {
    if |objs| == 0 then [] else Insert(SortObjects(objs[..|objs| - 1]), objs[|objs| - 1])
  }

  predicate Sorted(objs: seq<IncrementalObject>) {
    forall i, j :: 0 <= i < j < |objs| ==> !KeyLess(objs[j].key, objs[i].key)
  }

  lemma {:induction false} InsertPermutes(s: seq<IncrementalObject>, o: IncrementalObject)
    ensures multiset(Insert(s, o)) == multiset(s) + multiset{o}
  {
    if |s| > 0 && KeyLess(o.key, s[|s| - 1].key) {
      assert s == s[..|s| - 1] + [s[|s| - 1]];
      InsertPermutes(s[..|s| - 1], o);
    }
  }

  lemma {:induction false} InsertSorted(s: seq<IncrementalObject>, o: IncrementalObject)
    requires Sorted(s)
    ensures Sorted(Insert(s, o))
  {
    if |s| > 0 && KeyLess(o.key, s[|s| - 1].key) {
      var init, last := s[..|s| - 1], s[|s| - 1];
      InsertSorted(init, o);
      InsertPermutes(init, o);
      var r := Insert(init, o);
      forall i | 0 <= i < |r| ensures !KeyLess(last.key, r[i].key) {
        assert r[i] in multiset(r);
        assert r[i] in multiset(init) + multiset{o};
      }
    }
  }

  lemma {:induction false} SortObjectsSorts(objs: seq<IncrementalObject>)
    ensures Sorted(SortObjects(objs)) && multiset(SortObjects(objs)) == multiset(objs)
  {
    if |objs| > 0 {
      var init, last := objs[..|objs| - 1], objs[|objs| - 1];
      assert objs == init + [last];
      SortObjectsSorts(init);
      InsertSorted(SortObjects(init), last);
      InsertPermutes(SortObjects(init), last);
    }
  }

  /** Object numbers strictly ascending: the file order of a revision whose objects are all different. */
  predicate AscendingIds(objs: seq<IncrementalObject>) {
    forall i, j :: 0 <= i < j < |objs| ==> objs[i].key.id < objs[j].key.id
  }

  lemma {:induction false} InsertFront(s: seq<IncrementalObject>, o: IncrementalObject)
    requires forall i :: 0 <= i < |s| ==> o.key.id < s[i].key.id
    ensures Insert(s, o) == [o] + s
  {
    if |s| > 0 {
      InsertFront(s[..|s| - 1], o);
      assert s == s[..|s| - 1] + [s[|s| - 1]];
    }
  }

  lemma InsertBack(s: seq<IncrementalObject>, o: IncrementalObject)
    requires |s| > 0 ==> s[|s| - 1].key.id < o.key.id
    ensures Insert(s, o) == s + [o]
  {
  }

  lemma {:induction false} SortedAlready(objs: seq<IncrementalObject>)
    requires AscendingIds(objs)
    ensures SortObjects(objs) == objs
  {
    if |objs| > 0 {
      var init, last := objs[..|objs| - 1], objs[|objs| - 1];
      SortedAlready(init);
      SortSnoc(objs);
      hide SortObjects;
      assert |init| > 0 ==> init[|init| - 1].key.id < last.key.id;
      InsertBack(init, last);
      assert objs == init + [last];
    }
  }

  /** New objects in order of creation, then the rewritten Catalog: sorting brings the Catalog to the front. */
  lemma CatalogFirst(created: seq<IncrementalObject>, catalog: IncrementalObject)
    requires AscendingIds(created) && forall i :: 0 <= i < |created| ==> catalog.key.id < created[i].key.id
    ensures SortObjects(created + [catalog]) == [catalog] + created && AscendingIds([catalog] + created)
  {
    hide SortObjects, Insert;
    var all := created + [catalog];
    assert all[..|all| - 1] == created;
    SortedAlready(created);
    InsertFront(created, catalog);
    SortSnoc(all);
  }

  lemma SortSnoc(objs: seq<IncrementalObject>)
    requires |objs| > 0
    ensures SortObjects(objs) == Insert(SortObjects(objs[..|objs| - 1]), objs[|objs| - 1])
  {
  }

  // ---- Offsets -------------------------------------------------------------------------------

  /** std::map::emplace on the in-order listing: an id already present keeps its entry. */
  function Emplace(es: seq<XrefEntry>, e: XrefEntry): (r: seq<XrefEntry>) {
    if |es| == 0 || es[|es| - 1].id < e.id then es + [e]
    else if es[|es| - 1].id == e.id then es
    else Emplace(es[..|es| - 1], e) + [es[|es| - 1]]
  }

  lemma {:induction false} EmplaceMembers(es: seq<XrefEntry>, e: XrefEntry)
    ensures forall x :: x in Emplace(es, e) ==> x in es || x == e
    ensures forall x :: x in es ==> x in Emplace(es, e)
    ensures (forall x :: x in es ==> x.id != e.id) ==> e in Emplace(es, e)
  {
    if |es| > 0 {
      var init, last := es[..|es| - 1], es[|es| - 1];
      assert es == init + [last];
      EmplaceMembers(init, e);
    }
  }

  lemma {:induction false} EmplaceAscending(es: seq<XrefEntry>, e: XrefEntry)
    requires Ascending(es)
    ensures Ascending(Emplace(es, e))
  {
    if |es| > 0 && es[|es| - 1].id > e.id {
      var init, last := es[..|es| - 1], es[|es| - 1];
      EmplaceAscending(init, e);
      EmplaceMembers(init, e);
      var r := Emplace(init, e);
      forall i | 0 <= i < |r| ensures r[i].id < last.id { assert r[i] in r; }
    }
  }

  function Entries(base: nat, objs: seq<IncrementalObject>): (r: seq<XrefEntry>) {
    if |objs| == 0 then [] else
      var init, last := objs[..|objs| - 1], objs[|objs| - 1];
      Emplace(Entries(base, init), XrefEntry(last.key.id, base + |ObjectsText(init)|, last.key.gen))
  }

  /** The entry names the object whose text starts at its offset. */
  predicate PointsAt(base: nat, objs: seq<IncrementalObject>, e: XrefEntry, k: nat)
    requires k < |objs|
  {
    objs[k].key == ObjGen(e.id, e.gen) && e.offset == base + |ObjectsText(objs[..k])|
  }

  lemma {:induction false} EntriesAscending(base: nat, objs: seq<IncrementalObject>)
    ensures Ascending(Entries(base, objs))
    ensures forall e :: e in Entries(base, objs) ==> exists k :: 0 <= k < |objs| && PointsAt(base, objs, e, k)
  {
    hide ObjectsText, Emplace, Ascending;
    if |objs| == 0 {
      assert Ascending([]) by { NoEntriesAscending(); }
    } else {
      var n := |objs| - 1;
      var init := objs[..n];
      var added := XrefEntry(objs[n].key.id, base + |ObjectsText(init)|, objs[n].key.gen);
      EntriesAscending(base, init);
      EmplaceAscending(Entries(base, init), added);
      EmplaceMembers(Entries(base, init), added);
      forall e | e in Entries(base, objs) ensures exists k :: 0 <= k < |objs| && PointsAt(base, objs, e, k) {
        if e == added {
          assert PointsAt(base, objs, e, n);
        } else {
          var k :| 0 <= k < |init| && PointsAt(base, init, e, k);
          assert init[..k] == objs[..k];
          assert PointsAt(base, objs, e, k);
        }
      }
    }
  }

  lemma NoEntriesAscending()
    ensures Ascending([])
  {
  }

  /** With distinct object numbers every object has its own entry. */
  lemma {:induction false} EntriesCover(base: nat, objs: seq<IncrementalObject>, k: nat)
    requires AscendingIds(objs) && k < |objs|
    ensures XrefEntry(objs[k].key.id, base + |ObjectsText(objs[..k])|, objs[k].key.gen) in Entries(base, objs)
  {
    hide ObjectsText, Emplace, Ascending;
    var n := |objs| - 1;
    var init := objs[..n];
    var added := XrefEntry(objs[n].key.id, base + |ObjectsText(init)|, objs[n].key.gen);
    EntriesAscending(base, init);
    EmplaceMembers(Entries(base, init), added);
    if k < n {
      assert init[..k] == objs[..k] && init[k] == objs[k];
      EntriesCover(base, init, k);
    } else {
      forall e | e in Entries(base, init) ensures e.id != added.id {
        var j :| 0 <= j < |init| && PointsAt(base, init, e, j);
        assert init[j] == objs[j];
      }
    }
  }

  lemma {:induction false} ObjectTextAt(objs: seq<IncrementalObject>, k: nat)
    requires k < |objs|
    ensures At(ObjectsText(objs), |ObjectsText(objs[..k])|, ObjectText(objs[k]))
  {
    hide ObjectText, At;
    var n := |objs| - 1;
    var init := objs[..n];
    if k == n {
      AtMiddle(ObjectsText(init), ObjectText(objs[n]), []);
      assert ObjectsText(objs) == ObjectsText(init) + ObjectText(objs[n]) + [];
    } else {
      assert init[..k] == objs[..k] && init[k] == objs[k];
      ObjectTextAt(init, k);
      AtMiddle([], ObjectsText(init), ObjectText(objs[n]));
      assert ObjectsText(objs) == [] + ObjectsText(init) + ObjectText(objs[n]);
      AtTrans(ObjectsText(objs), 0, ObjectsText(init), |ObjectsText(objs[..k])|, ObjectText(objs[k]));
    }
  }

  // ---- The whole revision -------------------------------------------------------------------------

  function XrefOffset(base: nat, objs: seq<IncrementalObject>): (r: nat) { base + |ObjectsText(objs)| }

  /** A revision that starts at `base`: objects, cross-reference section, trailer. */
  function RevisionText(base: nat, objs: seq<IncrementalObject>, dict: Bytes): (r: Bytes) {
    ObjectsText(objs) + XrefText(Entries(base, objs)) + Tail(dict, XrefOffset(base, objs))
  }

  /** The same object with its body overwritten at `q`. */
  function PatchBody(objs: seq<IncrementalObject>, k: nat, q: nat, piece: Bytes): (r: seq<IncrementalObject>)
    requires k < |objs| && q + |piece| <= |objs[k].body|
    ensures |r| == |objs| && forall i :: 0 <= i < |objs| ==> r[i].key == objs[i].key
    ensures forall i :: 0 <= i < |objs| && i != k ==> r[i] == objs[i]
    ensures r[k].body == Patch(objs[k].body, q, piece)
  {
    objs[k := objs[k].(body := Patch(objs[k].body, q, piece))]
  }

  /** The offset, from the start of the revision, of the body of object k. */
  function BodyOffset(objs: seq<IncrementalObject>, k: nat): (r: nat)
    requires k < |objs|
  {
    |ObjectsText(objs[..k])| + |Header(objs[k].key)|
  }

  lemma PatchObjectText(o: IncrementalObject, q: nat, piece: Bytes)
    requires q + |piece| <= |o.body|
    ensures |Header(o.key)| + q + |piece| <= |ObjectText(o)|
    ensures Patch(ObjectText(o), |Header(o.key)| + q, piece) == ObjectText(o.(body := Patch(o.body, q, piece)))
  {
    hide Header;
    PatchInside(Header(o.key), o.body, ENDOBJ, q, piece);
  }

  lemma PatchRight(a: Bytes, b: Bytes, pos: nat, piece: Bytes)
    requires pos + |piece| <= |b|
    ensures Patch(a + b, |a| + pos, piece) == a + Patch(b, pos, piece)
  {
    assert a + b == a + b + [];
    PatchInside(a, b, [], pos, piece);
  }

  lemma PatchLeft(a: Bytes, b: Bytes, pos: nat, piece: Bytes)
    requires pos + |piece| <= |a|
    ensures Patch(a + b, pos, piece) == Patch(a, pos, piece) + b
  {
    assert a + b == [] + a + b;
    PatchInside([], a, b, pos, piece);
  }

  lemma PatchBodyInit(objs: seq<IncrementalObject>, k: nat, q: nat, piece: Bytes)
    requires k < |objs| - 1 && q + |piece| <= |objs[k].body|
    ensures PatchBody(objs, k, q, piece)[..|objs| - 1] == PatchBody(objs[..|objs| - 1], k, q, piece)
  {
  }

  lemma PatchLastObject(init: seq<IncrementalObject>, last: IncrementalObject, q: nat, piece: Bytes)
    requires q + |piece| <= |last.body|
    ensures |ObjectsText(init)| + |Header(last.key)| + q + |piece| <= |ObjectsText(init + [last])|
    ensures Patch(ObjectsText(init + [last]), |ObjectsText(init)| + |Header(last.key)| + q, piece)
              == ObjectsText(init + [last.(body := Patch(last.body, q, piece))])
  {
    hide ObjectText, Header, Patch;
    var patched := last.(body := Patch(last.body, q, piece));
    PatchObjectText(last, q, piece);
    assert (init + [last])[..|init|] == init && (init + [patched])[..|init|] == init;
    PatchRight(ObjectsText(init), ObjectText(last), |Header(last.key)| + q, piece);
  }

  lemma {:induction false} PatchObjects(objs: seq<IncrementalObject>, k: nat, q: nat, piece: Bytes)
    requires k < |objs| && q + |piece| <= |objs[k].body|
    ensures BodyOffset(objs, k) + q + |piece| <= |ObjectsText(objs)|
    ensures Patch(ObjectsText(objs), BodyOffset(objs, k) + q, piece) == ObjectsText(PatchBody(objs, k, q, piece))
  {
    hide ObjectText, ObjectsText, Header, Patch, PatchBody;
    var n := |objs| - 1;
    var init, last := objs[..n], objs[n];
    if k == n {
      PatchLastObject(init, last, q, piece);
      assert init + [last] == objs;
      assert init + [last.(body := Patch(last.body, q, piece))] == PatchBody(objs, k, q, piece);
    } else {
      assert init[..k] == objs[..k] && init[k] == objs[k];
      PatchObjects(init, k, q, piece);
      PatchBodyInit(objs, k, q, piece);
      ObjectsTextSnoc(objs);
      ObjectsTextSnoc(PatchBody(objs, k, q, piece));
      PatchLeft(ObjectsText(init), ObjectText(last), BodyOffset(objs, k) + q, piece);
    }
  }

  lemma ObjectsTextSnoc(objs: seq<IncrementalObject>)
    requires |objs| > 0
    ensures ObjectsText(objs) == ObjectsText(objs[..|objs| - 1]) + ObjectText(objs[|objs| - 1])
  {
  }

  predicate SameShape(a: seq<IncrementalObject>, b: seq<IncrementalObject>) {
    |a| == |b| && forall i :: 0 <= i < |a| ==> a[i].key == b[i].key && |a[i].body| == |b[i].body|
  }

  /** Overwriting bodies in place moves no object and changes no entry. */
  lemma {:induction false} SameShapeSameEntries(base: nat, a: seq<IncrementalObject>, b: seq<IncrementalObject>)
    requires SameShape(a, b)
    ensures |ObjectsText(a)| == |ObjectsText(b)| && Entries(base, a) == Entries(base, b)
  {
    hide Emplace, Header;
    if |a| > 0 {
      SameShapeSameEntries(base, a[..|a| - 1], b[..|b| - 1]);
    }
  }

  lemma PatchRevision(base: nat, objs: seq<IncrementalObject>, dict: Bytes, k: nat, q: nat, piece: Bytes)
    requires k < |objs| && q + |piece| <= |objs[k].body|
    ensures BodyOffset(objs, k) + q + |piece| <= |RevisionText(base, objs, dict)|
    ensures Patch(RevisionText(base, objs, dict), BodyOffset(objs, k) + q, piece)
              == RevisionText(base, PatchBody(objs, k, q, piece), dict)
    ensures XrefOffset(base, PatchBody(objs, k, q, piece)) == XrefOffset(base, objs)
    ensures Entries(base, PatchBody(objs, k, q, piece)) == Entries(base, objs)
  {
    hide ObjectsText, Entries, XrefText, BodyOffset, Tail;
    var patched := PatchBody(objs, k, q, piece);
    assert SameShape(objs, patched);
    SameShapeSameEntries(base, objs, patched);
    PatchObjects(objs, k, q, piece);
    var xref, tail := XrefText(Entries(base, objs)), Tail(dict, XrefOffset(base, objs));
    PatchLeft(ObjectsText(objs), xref + tail, BodyOffset(objs, k) + q, piece);
    assert RevisionText(base, objs, dict) == ObjectsText(objs) + (xref + tail);
    assert RevisionText(base, patched, dict) == ObjectsText(patched) + (xref + tail);
  }
}
