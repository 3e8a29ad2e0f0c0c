/**
 The verifier's arithmetic over byte ranges (src/lib/pades/PadesVerifier.cpp:45-62, 106-179, 199-216, 309-315), and what
 it finds in a file the builder made.
 */
module PadesVerifier {
  import opened ByteStrings
  import opened Decimal
  import opened Der
  import opened PdfByteRange
  import opened PdfPlaceholders
  import opened PdfTrailer
  import opened PdfRevision
  import opened PdfXref
  import opened PadesLog
  import opened PadesOutcome
  import opened PadesTheorems

  predicate Uint64Range(br: ByteRange) {
    br.offset1 < UINT64_LIMIT && br.length1 < UINT64_LIMIT && br.offset2 < UINT64_LIMIT && br.length2 < UINT64_LIMIT
  }

  /** The range check of a signature on a file of `size` bytes, over exact integers. */
  predicate RangeValid(br: ByteRange, size: nat) {
    && br.offset1 == 0 && br.offset2 > br.length1
    && br.offset1 + br.length1 <= size && br.offset2 + br.length2 <= size
  }

  /** The check as computed, with every sum and difference taken modulo 2^64. */
  method CheckRange(br: ByteRange, size: nat) returns (valid: bool)
    requires Uint64Range(br) && size < UINT64_LIMIT
    ensures valid <==> RangeValid(br, size)
  {
    InBoundsExact(8, br.offset1, br.length1, size);
    InBoundsExact(8, br.offset2, br.length2, size);
    var first := br.offset1 <= size && br.length1 <= WSub(8, size, br.offset1);
    var second := br.offset2 <= size && br.length2 <= WSub(8, size, br.offset2);
    valid := br.offset1 == 0 && br.offset2 > br.length1 && first && second;
  }

  /** The range takes the first a octets, and those from b to n. */
  predicate Covers(br: ByteRange, a: nat, b: nat, n: nat) { b <= n && br == ByteRange(0, a, b, n - b) }

  /** A range passes exactly when it leaves out one non-empty gap of a part of the file from its start on. */
  lemma ValidRangeLeavesGap(pdf: Bytes, br: ByteRange)
    ensures RangeValid(br, |pdf|) <==>
      exists a: nat, b: nat, n: nat :: Covers(br, a, b, n) && a < b && n <= |pdf|
    ensures RangeValid(br, |pdf|) ==> Extract(pdf, br) == pdf[..br.length1] + pdf[br.offset2..RangeEnd(br)]
  {
    if RangeValid(br, |pdf|) {
      assert Covers(br, br.length1, br.offset2, RangeEnd(br));
    }
  }

  /** The end of the revision a range signs. */
  function RangeEnd(br: ByteRange): (n: nat) { br.offset2 + br.length2 }

  /** e is the furthest end among the ranges that lie inside the file, 0 when there is none. */
  predicate IsCoverage(fields: seq<ByteRange>, size: nat, e: nat) {
    && e <= size
    && (e == 0 || exists i :: 0 <= i < |fields| && RangeEnd(fields[i]) == e)
    && forall i :: 0 <= i < |fields| && RangeEnd(fields[i]) <= size ==> RangeEnd(fields[i]) <= e
  }

  /** The aggregation loop: it never overflows, and the covered and uncovered parts make up the file. */
  method Aggregate(fields: seq<ByteRange>, size: nat) returns (coverageEnd: nat, unsignedTail: nat)
    requires size < UINT64_LIMIT && forall i :: 0 <= i < |fields| ==> Uint64Range(fields[i])
    ensures IsCoverage(fields, size, coverageEnd) && coverageEnd + unsignedTail == size
  {
    coverageEnd := 0;
    var k := 0;
    while k < |fields|
      invariant 0 <= k <= |fields| && IsCoverage(fields[..k], size, coverageEnd)
    {
      var f := fields[k];
      ghost var before := coverageEnd;
      InBoundsExact(8, f.offset2, f.length2, size);
      if f.offset2 <= size && f.length2 <= WSub(8, size, f.offset2) {
        AddExact(8, f.offset2, f.length2);
        var end := WAdd(8, f.offset2, f.length2);
        if end > coverageEnd { coverageEnd := end; }
      }
      CoverageStep(fields, size, k, before, coverageEnd);
      k := k + 1;
    }
    assert fields[..k] == fields;
    unsignedTail := if size > coverageEnd then size - coverageEnd else 0;
  }

  lemma CoverageStep(fields: seq<ByteRange>, size: nat, k: nat, before: nat, after: nat)
    requires k < |fields| && IsCoverage(fields[..k], size, before)
    requires after == if before < RangeEnd(fields[k]) <= size then RangeEnd(fields[k]) else before
    ensures IsCoverage(fields[..k + 1], size, after)
  {
    var init, all := fields[..k], fields[..k + 1];
    assert all[k] == fields[k];
    if after == before && before != 0 {
      var i :| 0 <= i < |init| && RangeEnd(init[i]) == before;
      assert all[i] == init[i];
    }
    forall i | 0 <= i < |all| && RangeEnd(all[i]) <= size ensures RangeEnd(all[i]) <= after {
      if i < k { assert all[i] == init[i]; }
    }
  }

  lemma CoverageUnique(fields: seq<ByteRange>, size: nat, a: nat, b: nat)
    requires IsCoverage(fields, size, a) && IsCoverage(fields, size, b)
    ensures a == b
  {
  }

  // ---- The end-of-file marker ----------------------------------------------------------------------

  predicate IsPadding(c: Byte) { c == 0x0D || c == 0x0A || c == 0x20 || c == 0x09 || c == 0x0C || c == 0x00 }

  const MARKER: Bytes := [0x25, 0x25, 0x45, 0x4F, 0x46]

  predicate MarkerBefore(pdf: Bytes, end: int) { 5 <= end <= |pdf| && At(pdf, end - 5, MARKER) }

  /** Only padding after the marker. */
  ghost predicate EndsInMarker(pdf: Bytes) {
    exists end :: MarkerBefore(pdf, end) && forall i :: end <= i < |pdf| ==> IsPadding(pdf[i])
  }

  method EndsWithPdfEof(pdf: Bytes) returns (r: bool)
    ensures r <==> EndsInMarker(pdf)
  {
    var end := |pdf|;
    while end > 0 && IsPadding(pdf[end - 1])
      invariant 0 <= end <= |pdf| && forall i :: end <= i < |pdf| ==> IsPadding(pdf[i])
    {
      end := end - 1;
    }
    forall e | MarkerBefore(pdf, e) ensures !IsPadding(pdf[e - 1]) { AtIndex(pdf, e - 5, MARKER, 4); }
    if end < 5 { return false; }
    r := pdf[end - 5..end] == MARKER;
    assert r ==> MarkerBefore(pdf, end);
  }

  // ---- Classification -----------------------------------------------------------------------------

  datatype Status = Complete | Extended | Modified | DataAppended | Unverifiable

  /** The result of comparing the pages of the signed revision with those of the whole file. */
  datatype Comparison = Failed | Changed | Unchanged

  function Classify(coverageEnd: nat, size: nat, eof: bool, pages: Comparison): (r: (Status, bool)) {
    if coverageEnd == size then (Complete, true)
    else if !eof then (DataAppended, false)
    else match pages
      case Failed => (Unverifiable, false)
      case Changed => (Modified, false)
      case Unchanged => (Extended, true)
  }

  predicate EndsAt(fields: seq<ByteRange>, e: nat) { exists i :: 0 <= i < |fields| && RangeEnd(fields[i]) == e }

  lemma CoverageIsAll(fields: seq<ByteRange>, size: nat, e: nat)
    requires IsCoverage(fields, size, e) && size > 0
    ensures e == size <==> EndsAt(fields, size)
  {
    hide RangeEnd;
  }

  /** The whole file is under a signature: it is empty, or the range of some field ends with it. */
  predicate Covered(fields: seq<ByteRange>, size: nat) { size == 0 || EndsAt(fields, size) }

  /** What the verifier says about the coverage of any file with any fields. The file counts as covered exactly when the
      range of a field ends with it, or when it ends in the marker and the pages have not changed since the furthest
      end. */
  method AssessCoverage(pdf: Bytes, fields: seq<ByteRange>, compare: nat -> Comparison)
    returns (coverageEnd: nat, unsignedTail: nat, status: Status, complete: bool)
    requires |pdf| < UINT64_LIMIT && forall i :: 0 <= i < |fields| ==> Uint64Range(fields[i])
    ensures IsCoverage(fields, |pdf|, coverageEnd) && coverageEnd + unsignedTail == |pdf|
    ensures complete <==> Covered(fields, |pdf|) || (EndsInMarker(pdf) && compare(coverageEnd).Unchanged?)
    ensures status.Complete? <==> Covered(fields, |pdf|)
    ensures status.DataAppended? <==> !Covered(fields, |pdf|) && !EndsInMarker(pdf)
    ensures status.Unverifiable? <==> !Covered(fields, |pdf|) && EndsInMarker(pdf) && compare(coverageEnd).Failed?
    ensures status.Modified? <==> !Covered(fields, |pdf|) && EndsInMarker(pdf) && compare(coverageEnd).Changed?
    ensures (status, complete) == Classify(coverageEnd, |pdf|, EndsInMarker(pdf), compare(coverageEnd))
  {
    hide IsCoverage, EndsInMarker, EndsAt;
    coverageEnd, unsignedTail := Aggregate(fields, |pdf|);
    CoverageOfNothing(fields, coverageEnd);
    if |pdf| > 0 { CoverageIsAll(fields, |pdf|, coverageEnd); }
    if coverageEnd == |pdf| { return coverageEnd, unsignedTail, Complete, true; }
    var eof := EndsWithPdfEof(pdf);
    if !eof { return coverageEnd, unsignedTail, DataAppended, false; }
    match compare(coverageEnd)
    case Failed => status, complete := Unverifiable, false;
    case Changed => status, complete := Modified, false;
    case Unchanged => status, complete := Extended, true;
  }

  lemma CoverageOfNothing(fields: seq<ByteRange>, e: nat)
    ensures IsCoverage(fields, 0, e) ==> e == 0
  {
  }

  /** The same for the classification by itself. */
  lemma VerdictIs(pdf: Bytes, fields: seq<ByteRange>, e: nat, pages: Comparison)
    requires IsCoverage(fields, |pdf|, e)
    ensures var verdict := Classify(e, |pdf|, EndsInMarker(pdf), pages);
      && (verdict.1 <==> Covered(fields, |pdf|) || (EndsInMarker(pdf) && pages.Unchanged?))
      && (verdict == (DataAppended, false) <==> !Covered(fields, |pdf|) && !EndsInMarker(pdf))
  {
    hide IsCoverage, EndsInMarker, EndsAt;
    CoverageOfNothing(fields, e);
    if |pdf| > 0 { CoverageIsAll(fields, |pdf|, e); }
  }

  /** An octet that is neither padding nor the last of the marker ends no marker. */
  lemma LastOctetDecides(pdf: Bytes)
    requires pdf != [] && pdf[|pdf| - 1] !in {0x0D, 0x0A, 0x20, 0x09, 0x0C, 0x00, 0x46}
    ensures !EndsInMarker(pdf)
  {
    if end :| MarkerBefore(pdf, end) && forall i :: end <= i < |pdf| ==> IsPadding(pdf[i]) {
      AtIndex(pdf, end - 5, MARKER, 4);
    }
  }

  /** Line ends, blanks, form feeds and zeros after the marker do not matter. */
  lemma PaddingIsIgnored(pdf: Bytes, pad: Bytes)
    requires EndsInMarker(pdf)
    requires forall i :: 0 <= i < |pad| ==> pad[i] in {0x0D, 0x0A, 0x20, 0x09, 0x0C, 0x00}
    ensures EndsInMarker(pdf + pad)
  {
    var end :| MarkerBefore(pdf, end) && forall i :: end <= i < |pdf| ==> IsPadding(pdf[i]);
    assert (pdf + pad)[end - 5..end] == pdf[end - 5..end];
    assert MarkerBefore(pdf + pad, end);
  }

  // ---- Files the builder made ------------------------------------------------------------------------

  /** The ranges of the signatures and timestamps of a run, in file order. */
  function Ranges(log: seq<Revision>): (r: seq<ByteRange>) {
    if |log| == 0 then [] else
      var last := log[|log| - 1].content;
      Ranges(log[..|log| - 1]) + (if last.Sealed? then [last.range] else [])
  }

  predicate SealsRange(log: seq<Revision>, x: ByteRange) {
    exists i :: 0 <= i < |log| && log[i].content.Sealed? && log[i].content.range == x
  }

  lemma {:induction false} RangesAre(log: seq<Revision>)
    ensures forall i :: 0 <= i < |log| && log[i].content.Sealed? ==> log[i].content.range in Ranges(log)
    ensures forall x :: x in Ranges(log) ==> SealsRange(log, x)
  {
    if |log| > 0 {
      var n := |log| - 1;
      var init := log[..n];
      RangesAre(init);
      forall x | x in Ranges(log) ensures SealsRange(log, x) {
        if x in Ranges(init) {
          var i :| 0 <= i < |init| && init[i].content.Sealed? && init[i].content.range == x;
          assert log[i] == init[i];
        } else {
          assert log[n].content.Sealed? && log[n].content.range == x;
        }
      }
    }
  }

  /** A builder-written range ends where its revision ends and passes the verifier's check on the final file. */
  lemma RangeOfRevision(pdf: Bytes, r: Revision)
    requires RevisionOk(pdf, r) && r.content.Sealed?
    ensures RangeEnd(r.content.range) == End(r) <= |pdf| && RangeValid(r.content.range, |pdf|)
  {
    hide Text, DictAt, SigBody, RangeField, RangeNumbers, HexSlot, LtAt, GtAt, AscendingIds;
  }

  /** Signed revision ends strictly increase along the run. */
  lemma {:induction false} EndsIncrease(base: nat, prev: nat, log: seq<Revision>, i: nat, j: nat)
    requires Linked(base, prev, log) && i < j < |log|
    ensures End(log[i]) <= log[j].start < End(log[j])
    decreases j
  {
    hide Linked, StartXref, RevisionText;
    LinkHolds(base, prev, log, j);
    RevisionNotEmpty(log[j]);
    if i < j - 1 { EndsIncrease(base, prev, log, i, j - 1); }
  }

  lemma RevisionNotEmpty(r: Revision)
    ensures |Text(r)| > 0
  {
    hide ObjectsText, XrefText, Entries;
    TailStartsWithT(r.dict, XrefOffset(r.start, r.objects));
  }

  /** The file ends in the marker. */
  lemma OutputEndsInMarker(doc: Bytes, out: Bytes, prev: nat, log: seq<Revision>)
    requires RunOk(doc, out, prev, log) && log != []
    ensures EndsInMarker(out)
  {
    hide RevisionOk, Linked, Base, At, Dec, XrefText, Entries, ObjectsText;
    var r := log[|log| - 1];
    RevisionParts(out, r);
    var tail, n := Tail(r.dict, StartXref(r)), |out|;
    var last := STARTXREF + [0x0A] + Dec(StartXref(r)) + EOF;
    AtSplit(out, n - |tail|, TRAILER + r.dict + [0x0A], last);
    AtSplit(out, n - |last|, STARTXREF + [0x0A] + Dec(StartXref(r)), EOF);
    EofIsMarker();
    AtSplit3(out, n - 7, [0x0A], MARKER, [0x0A]);
    AtIndex(out, n - 1, [0x0A], 0);
    assert MarkerBefore(out, n - 1);
  }

  lemma EofIsMarker()
    ensures EOF == [0x0A] + MARKER + [0x0A] && |EOF| == 7
  {
  }

  /** The fields a verifier finds in a builder file: those of the run among them, in any order. */
  predicate HasRun(log: seq<Revision>, fields: seq<ByteRange>) { forall x :: x in Ranges(log) ==> x in fields }

  /** The range of some field ends after one offset and not after the other. */
  predicate EndsWithin(fields: seq<ByteRange>, low: nat, high: nat) {
    exists i :: 0 <= i < |fields| && low < RangeEnd(fields[i]) <= high
  }

  /** The signature, at LT, or the last revision, otherwise, ends where the coverage does. */
  lemma RunReaches(s: Services, level: int, doc: Bytes, out: Bytes, prev: nat, log: seq<Revision>)
    returns (x: ByteRange)
    requires 0 <= level <= 3 && RunOk(doc, out, prev, log) && StepsOk(s, level, log) && LengthOk(level, log)
    ensures x in Ranges(log) && RangeEnd(x) == (if level == 2 then log[1].start else |out|) <= |out|
  {
    hide Ranges, RevisionOk, Base, Text, StartXref, SignatureFrom, HoldsEvidence, RangeEnd;
    RangesAre(log);
    var last := if level == 2 then 0 else |log| - 1;
    assert StepOk(s, level, log, last);
    RangeOfRevision(out, log[last]);
    if level == 2 { LinkHolds(|Base(doc)|, prev, log, 1); }
    x := log[last].content.range;
  }

  lemma CoverageEnds(fields: seq<ByteRange>, size: nat, x: ByteRange)
    requires x in fields && RangeEnd(x) <= size
    ensures IsCoverage(fields, size, RangeEnd(x)) <==> !EndsWithin(fields, RangeEnd(x), size)
  {
    hide RangeEnd;
    var j :| 0 <= j < |fields| && fields[j] == x;
  }

  /** Coverage of a builder file, whatever other fields there are: everything at B, T and LTA. At LT everything up to
      the security store, exactly when no field's range ends in the store, as none of the run's does. */
  lemma CoverageOfRun(s: Services, level: int, doc: Bytes, out: Bytes, prev: nat, log: seq<Revision>,
                      fields: seq<ByteRange>)
    requires 0 <= level <= 3 && RunOk(doc, out, prev, log) && StepsOk(s, level, log) && LengthOk(level, log)
    requires HasRun(log, fields)
    ensures level != 2 ==> IsCoverage(fields, |out|, |out|)
    ensures level == 2 ==> (IsCoverage(fields, |out|, log[1].start) <==> !EndsWithin(fields, log[1].start, |out|))
    ensures level == 2 ==> out[log[1].start..] == Text(log[1])
  {
    hide Ranges, RevisionOk, Text, StepsOk, RangeEnd, IsCoverage;
    var x := RunReaches(s, level, doc, out, prev, log);
    CoverageEnds(fields, |out|, x);
    if level == 2 { StoreIsTail(out, log[1]); }
  }

  lemma RunRangesEnd(s: Services, doc: Bytes, out: Bytes, prev: nat, log: seq<Revision>, x: ByteRange)
    requires RunOk(doc, out, prev, log) && StepsOk(s, 2, log) && LengthOk(2, log) && x in Ranges(log)
    ensures RangeEnd(x) <= log[1].start
  {
    hide Ranges, RevisionOk, Base, Text, StartXref, SignatureFrom, HoldsEvidence, RangeEnd;
    RangesAre(log);
    var k :| 0 <= k < |log| && log[k].content.Sealed? && log[k].content.range == x;
    RangeOfRevision(out, log[k]);
    assert StepOk(s, 2, log, 1);
    LinkHolds(|Base(doc)|, prev, log, 1);
  }

  lemma DocumentComesFirst(doc: Bytes, out: Bytes, prev: nat, log: seq<Revision>)
    requires RunOk(doc, out, prev, log) && |log| == 2
    ensures |doc| <= log[1].start < |out|
  {
    hide RevisionOk, Text, StartXref, Linked;
    LinkHolds(|Base(doc)|, prev, log, 0);
    LinkHolds(|Base(doc)|, prev, log, 1);
    RevisionNotEmpty(log[1]);
  }

  /** Fields that the document had before, with ranges that end inside it, are such that the store stays uncovered. */
  lemma EarlierFieldsEndBefore(s: Services, doc: Bytes, out: Bytes, prev: nat, log: seq<Revision>,
                               fields: seq<ByteRange>)
    requires RunOk(doc, out, prev, log) && StepsOk(s, 2, log) && LengthOk(2, log)
    requires forall x :: x in fields ==> x in Ranges(log) || RangeEnd(x) <= |doc|
    ensures !EndsWithin(fields, log[1].start, |out|) && !EndsAt(fields, |out|)
  {
    hide RunOk, StepsOk, Ranges, RangeEnd;
    DocumentComesFirst(doc, out, prev, log);
    forall i | 0 <= i < |fields| ensures RangeEnd(fields[i]) <= log[1].start {
      assert fields[i] in fields;
      if fields[i] in Ranges(log) { RunRangesEnd(s, doc, out, prev, log, fields[i]); }
    }
  }

  lemma StoreIsTail(out: Bytes, r: Revision)
    requires RevisionOk(out, r) && End(r) == |out|
    ensures out[r.start..] == Text(r)
  {
  }

  /** What the verifier reports about a builder file, whatever other fields there are: complete at B, T and LTA. At LT
      it is complete exactly when the range of a field ends with the file, as none of the run's does; otherwise the page
      comparison decides, and only a change or a failed comparison is held against the file. */
  lemma VerdictOnRun(s: Services, level: int, doc: Bytes, out: Bytes, prev: nat, log: seq<Revision>,
                     fields: seq<ByteRange>, e: nat, pages: Comparison)
    requires 0 <= level <= 3 && RunOk(doc, out, prev, log) && StepsOk(s, level, log) && LengthOk(level, log)
    requires HasRun(log, fields) && IsCoverage(fields, |out|, e)
    ensures var verdict := Classify(e, |out|, EndsInMarker(out), pages);
      && (level != 2 || EndsAt(fields, |out|) ==> verdict == (Complete, true))
      && (level == 2 && !EndsAt(fields, |out|) ==> verdict == PageVerdict(pages))
  {
    hide RunOk, StepsOk, Ranges, IsCoverage, EndsInMarker, Text, HasRun, EndsAt, EndsWithin;
    OutputEndsInMarker(doc, out, prev, log);
    OutputNotEmpty(doc, out, prev, log);
    CoverageIsAll(fields, |out|, e);
    if level != 2 {
      CoverageOfRun(s, level, doc, out, prev, log, fields);
      CoverageUnique(fields, |out|, e, |out|);
    }
  }

  function PageVerdict(pages: Comparison): (r: (Status, bool)) {
    match pages
    case Failed => (Unverifiable, false)
    case Changed => (Modified, false)
    case Unchanged => (Extended, true)
  }

  lemma OutputNotEmpty(doc: Bytes, out: Bytes, prev: nat, log: seq<Revision>)
    requires RunOk(doc, out, prev, log) && log != []
    ensures |out| > 0
  {
    hide RevisionOk, Linked, Base, Text;
    RevisionNotEmpty(log[|log| - 1]);
  }

  /** Whatever is appended to a builder file without a new revision is noticed: a suffix after which the file does not
      end in the marker, unless some field claims to reach the new end. */
  lemma AppendedIsNoticed(doc: Bytes, out: Bytes, prev: nat, log: seq<Revision>, suffix: Bytes,
                          fields: seq<ByteRange>, e: nat, pages: Comparison)
    requires RunOk(doc, out, prev, log) && log != [] && suffix != []
    requires IsCoverage(fields, |out + suffix|, e)
    requires !EndsInMarker(out + suffix) && !EndsAt(fields, |out + suffix|)
    ensures Classify(e, |out + suffix|, EndsInMarker(out + suffix), pages) == (DataAppended, false)
  {
    hide RunOk, IsCoverage, EndsInMarker, EndsAt;
    OutputNotEmpty(doc, out, prev, log);
    VerdictIs(out + suffix, fields, e, pages);
  }

  /** For instance one octet more, with the fields of the run. */
  lemma OneOctetIsNoticed(doc: Bytes, out: Bytes, prev: nat, log: seq<Revision>, octet: Byte, e: nat, pages: Comparison)
    requires RunOk(doc, out, prev, log) && log != [] && octet !in {0x0D, 0x0A, 0x20, 0x09, 0x0C, 0x00, 0x46}
    requires IsCoverage(Ranges(log), |out + [octet]|, e)
    ensures Classify(e, |out + [octet]|, EndsInMarker(out + [octet]), pages) == (DataAppended, false)
  {
    hide RevisionOk, Linked, Base, IsCoverage, EndsInMarker, Ranges, RangeEnd;
    LastOctetDecides(out + [octet]);
    RangesAre(log);
    forall i | 0 <= i < |Ranges(log)| ensures RangeEnd(Ranges(log)[i]) <= |out| {
      var x := Ranges(log)[i];
      assert x in Ranges(log);
      var k :| 0 <= k < |log| && log[k].content.Sealed? && log[k].content.range == x;
      RangeOfRevision(out, log[k]);
    }
    AppendedIsNoticed(doc, out, prev, log, [octet], Ranges(log), e, pages);
  }
}
