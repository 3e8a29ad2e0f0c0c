/** Validation evidence and its merging (src/lib/pades/PadesBuilder.cpp:327-343). */
module PadesEvidence {
  import opened ByteStrings

  datatype Evidence = Evidence(certs: seq<Bytes>, crls: seq<Bytes>, ocsps: seq<Bytes>)

  /** `to` followed by the non-empty blobs of from[..n] it does not hold yet. */
  function Merged(to: seq<Bytes>, from: seq<Bytes>, n: nat): (r: seq<Bytes>)
    requires n <= |from|
    ensures to <= r
  {
    if n == 0 then to else
      var before := Merged(to, from, n - 1);
      if from[n - 1] != [] && from[n - 1] !in before then before + [from[n - 1]] else before
  }

  /** One list of the merge. */
  method MergeList(to: seq<Bytes>, from: seq<Bytes>, changed: bool) returns (out: seq<Bytes>, changed': bool)
    ensures out == Merged(to, from, |from|)
    ensures changed' == (changed || out != to)
  {
    out, changed' := to, changed;
    var k := 0;
    while k < |from|
      invariant 0 <= k <= |from| && out == Merged(to, from, k)
      invariant changed' == (changed || out != to)
    {
      if from[k] != [] && from[k] !in out {
        out, changed' := out + [from[k]], true;
      }
      k := k + 1;
    }
  }

  function Merge(target: Evidence, incoming: Evidence): (r: Evidence) {
    Evidence(Merged(target.certs, incoming.certs, |incoming.certs|),
             Merged(target.crls, incoming.crls, |incoming.crls|),
             Merged(target.ocsps, incoming.ocsps, |incoming.ocsps|))
  }

  method MergeEvidence(target: Evidence, incoming: Evidence) returns (out: Evidence, changed: bool)
    ensures out == Merge(target, incoming) && changed == (out != target)
  {
    var certs, c0 := MergeList(target.certs, incoming.certs, false);
    var crls, c1 := MergeList(target.crls, incoming.crls, c0);
    var ocsps, c2 := MergeList(target.ocsps, incoming.ocsps, c1);
    out, changed := Evidence(certs, crls, ocsps), c2;
  }

  // ---- What the merge means ---------------------------------------------------------------------

  predicate HoldsAll(have: seq<Bytes>, blobs: seq<Bytes>) {
    forall b :: b in blobs && b != [] ==> b in have
  }

  /** Every non-empty blob of `blobs` is held, list by list. */
  predicate Holds(have: Evidence, blobs: Evidence) {
    HoldsAll(have.certs, blobs.certs) && HoldsAll(have.crls, blobs.crls) && HoldsAll(have.ocsps, blobs.ocsps)
  }

  /** `b` extends `a`: nothing is dropped or reordered. */
  predicate Extends(a: Evidence, b: Evidence) { a.certs <= b.certs && a.crls <= b.crls && a.ocsps <= b.ocsps }

  predicate AllFrom(blobs: seq<Bytes>, a: seq<Bytes>, b: seq<Bytes>) {
    forall x :: x in blobs ==> x in a || (x != [] && x in b)
  }

  /** Every blob was there or is a non-empty one that came in, list by list. */
  predicate ComesFrom(e: Evidence, a: Evidence, b: Evidence) {
    AllFrom(e.certs, a.certs, b.certs) && AllFrom(e.crls, a.crls, b.crls) && AllFrom(e.ocsps, a.ocsps, b.ocsps)
  }

  function Size(e: Evidence): (n: nat) { |e.certs| + |e.crls| + |e.ocsps| }

  lemma {:induction false} MergedHolds(to: seq<Bytes>, from: seq<Bytes>, n: nat)
    requires n <= |from|
    ensures forall i :: 0 <= i < n && from[i] != [] ==> from[i] in Merged(to, from, n)
    ensures AllFrom(Merged(to, from, n), to, from)
  {
    if n > 0 { MergedHolds(to, from, n - 1); }
  }

  /** A merge keeps what there was, holds what came in and nothing else, and changes the evidence exactly
      when something non-empty was missing; a change strictly grows it. */
  lemma MergeMeaning(target: Evidence, incoming: Evidence)
    ensures var r := Merge(target, incoming);
            && Extends(target, r) && Holds(r, incoming) && ComesFrom(r, target, incoming)
            && (r == target <==> Holds(target, incoming))
            && (r != target ==> Size(r) > Size(target))
  {
    MergedHolds(target.certs, incoming.certs, |incoming.certs|);
    MergedHolds(target.crls, incoming.crls, |incoming.crls|);
    MergedHolds(target.ocsps, incoming.ocsps, |incoming.ocsps|);
    MergedSame(target.certs, incoming.certs, |incoming.certs|);
    MergedSame(target.crls, incoming.crls, |incoming.crls|);
    MergedSame(target.ocsps, incoming.ocsps, |incoming.ocsps|);
  }

  lemma {:induction false} MergedSame(to: seq<Bytes>, from: seq<Bytes>, n: nat)
    requires n <= |from|
    ensures Merged(to, from, n) == to <==> forall i :: 0 <= i < n && from[i] != [] ==> from[i] in to
    ensures Merged(to, from, n) == to || |Merged(to, from, n)| > |to|
  {
    if n > 0 { MergedSame(to, from, n - 1); }
  }

  lemma HoldsTransfers(a: Evidence, b: Evidence, blobs: Evidence)
    requires Extends(a, b) && Holds(a, blobs)
    ensures Holds(b, blobs)
  {
  }
}
