/** The objects of a document security store (src/lib/pades/PadesBuilder.cpp:71-75, 520-556). */
module PadesStore {
  import opened ByteStrings
  import opened Decimal
  import opened PdfTrailer
  import opened PdfRevision
  import opened PadesEvidence

  function StreamObj(blob: Bytes): (r: Bytes) {
    Ascii("<</Length ") + Dec(|blob|) + Ascii(">>\nstream\n") + blob + Ascii("\nendstream")
  }

  /** One stream per non-empty blob, with object numbers from `first` on. */
  function StreamObjects(blobs: seq<Bytes>, first: nat): (r: seq<IncrementalObject>)
    ensures |r| <= |blobs| && forall i :: 0 <= i < |r| ==> r[i].key == ObjGen(first + i, 0)
  {
    if |blobs| == 0 then [] else
      var before, last := StreamObjects(blobs[..|blobs| - 1], first), blobs[|blobs| - 1];
      if last == [] then before
      else before + [IncrementalObject(ObjGen(first + |before|, 0), StreamObj(last))]
  }

  method AppendStreams(blobs: seq<Bytes>, first: nat) returns (objs: seq<IncrementalObject>, next: nat)
    ensures objs == StreamObjects(blobs, first) && next == first + |objs|
  {
    hide StreamObj;
    objs, next := [], first;
    var k := 0;
    while k < |blobs|
      invariant 0 <= k <= |blobs| && objs == StreamObjects(blobs[..k], first) && next == first + |objs|
    {
      assert blobs[..k + 1][..k] == blobs[..k];
      if blobs[k] != [] {
        objs := objs + [IncrementalObject(ObjGen(next, 0), StreamObj(blobs[k]))];
        next := next + 1;
      }
      k := k + 1;
    }
    assert blobs[..k] == blobs;
  }

  predicate HasStream(objs: seq<IncrementalObject>, blob: Bytes) {
    exists i :: 0 <= i < |objs| && objs[i].body == StreamObj(blob)
  }

  lemma {:induction false} StreamsHold(blobs: seq<Bytes>, first: nat, blob: Bytes)
    requires blob in blobs && blob != []
    ensures HasStream(StreamObjects(blobs, first), blob)
  {
    hide StreamObj;
    var n := |blobs| - 1;
    var before, all := StreamObjects(blobs[..n], first), StreamObjects(blobs, first);
    if blob == blobs[n] {
      assert all[|before|].body == StreamObj(blob);
    } else {
      StreamsHold(blobs[..n], first, blob);
      var i :| 0 <= i < |before| && before[i].body == StreamObj(blob);
      assert all[i] == before[i];
    }
  }

  /** The evidence streams of a store, certificates first. */
  function StoreStreams(e: Evidence, first: nat): (r: seq<IncrementalObject>)
    ensures forall i :: 0 <= i < |r| ==> r[i].key == ObjGen(first + i, 0)
  {
    var certs := StreamObjects(e.certs, first);
    var crls := StreamObjects(e.crls, first + |certs|);
    certs + crls + StreamObjects(e.ocsps, first + |certs| + |crls|)
  }

  predicate InEvidence(e: Evidence, blob: Bytes) { blob in e.certs || blob in e.crls || blob in e.ocsps }

  lemma HasStreamLater(a: seq<IncrementalObject>, b: seq<IncrementalObject>, c: seq<IncrementalObject>, blob: Bytes)
    requires HasStream(b, blob)
    ensures HasStream(a + b + c, blob)
  {
    hide StreamObj;
    var i :| 0 <= i < |b| && b[i].body == StreamObj(blob);
    assert (a + b + c)[|a| + i] == b[i];
  }

  /** Every non-empty blob of the evidence has its stream. */
  lemma StoreHolds(e: Evidence, first: nat, blob: Bytes)
    requires InEvidence(e, blob) && blob != []
    ensures HasStream(StoreStreams(e, first), blob)
  {
    hide StreamObj, HasStream, StreamObjects;
    var certs := StreamObjects(e.certs, first);
    var crls := StreamObjects(e.crls, first + |certs|);
    var ocsps := StreamObjects(e.ocsps, first + |certs| + |crls|);
    if blob in e.certs {
      StreamsHold(e.certs, first, blob);
      HasStreamLater([], certs, crls + ocsps, blob);
      assert [] + certs + (crls + ocsps) == certs + crls + ocsps;
    } else if blob in e.crls {
      StreamsHold(e.crls, first + |certs|, blob);
      HasStreamLater(certs, crls, ocsps, blob);
    } else {
      StreamsHold(e.ocsps, first + |certs| + |crls|, blob);
      HasStreamLater(certs + crls, ocsps, [], blob);
      assert certs + crls + ocsps + [] == certs + crls + ocsps;
    }
  }
}
