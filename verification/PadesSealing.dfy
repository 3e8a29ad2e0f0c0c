/**
 The two in-place patches of a freshly appended signature revision (src/lib/pades/PadesBuilder.cpp:479-516,
 607-622), shown to leave a sound revision: the patched bytes are the layout of the same objects with the
 slots filled.
 */
module PadesSealing {
  import opened ByteStrings
  import opened PdfByteRange
  import opened PdfPlaceholders
  import opened PdfTrailer
  import opened PdfXref
  import opened PdfRevision
  import opened PadesEvidence
  import opened PadesLog

  lemma PatchRangeSlot(kind: SigKind, range: Bytes, range': Bytes, hex: Bytes, extra: Bytes)
    requires |range| == |range'|
    ensures OpenAt(kind) + |range'| <= |SigBody(kind, range, hex, extra)|
    ensures Patch(SigBody(kind, range, hex, extra), OpenAt(kind), range') == SigBody(kind, range', hex, extra)
  {
    hide Prefix, Middle, SigBody;
    var after := Middle() + hex + ([0x3E] + extra + [0x3E, 0x3E]);
    BodyAroundRange(kind, range, hex, extra);
    BodyAroundRange(kind, range', hex, extra);
    PatchInside(Prefix(kind), range, after, 0, range');
    assert Patch(range, 0, range') == range';
  }

  lemma BodyAroundRange(kind: SigKind, range: Bytes, hex: Bytes, extra: Bytes)
    ensures var end := [0x3E] + extra + [0x3E, 0x3E];
      SigBody(kind, range, hex, extra) == Prefix(kind) + range + (Middle() + hex + end)
  {
    hide Prefix, Middle;
    var front, end := Prefix(kind) + range, [0x3E] + extra + [0x3E, 0x3E];
    Regroup(front, Middle() + hex, end);
    Regroup(front, Middle(), hex);
  }

  lemma PatchContentsSlot(kind: SigKind, range: Bytes, hex: Bytes, extra: Bytes, text: Bytes)
    requires |range| == BYTE_RANGE_SLOT_LEN && |text| <= |hex|
    ensures LtAt(kind) + 1 + |text| <= |SigBody(kind, range, hex, extra)|
    ensures var filled := SigBody(kind, range, Patch(hex, 0, text), extra);
      Patch(SigBody(kind, range, hex, extra), LtAt(kind) + 1, text) == filled
  {
    hide Prefix;
    var before, after := Prefix(kind) + range + Middle(), [0x3E] + extra + [0x3E, 0x3E];
    assert |Middle()| == 11;
    PatchInside(before, hex, after, 0, text);
  }

  lemma HexOverZeros(contents: Bytes)
    requires 2 * |contents| <= CONTENTS_HEX_LEN
    ensures Patch(Fill(CONTENTS_HEX_LEN, 0x30), 0, HexUpper(contents)) == HexSlot(contents)
  {
  }

  /** The signature object is number k of `objs` and still has both placeholders. */
  predicate Blank(objs: seq<IncrementalObject>, k: nat, kind: SigKind, extra: Bytes) {
    k < |objs| && objs[k].body == SigDictBody(kind, extra)
  }

  function FilledBody(kind: SigKind, extra: Bytes, range: ByteRange, contents: Bytes): (b: Bytes)
    requires |RangeNumbers(range)| + 2 <= BYTE_RANGE_SLOT_LEN && 2 * |contents| <= CONTENTS_HEX_LEN
  {
    SigBody(kind, RangeField(range, BYTE_RANGE_SLOT_LEN), HexSlot(contents), extra)
  }

  function Filled(objs: seq<IncrementalObject>, k: nat, kind: SigKind, extra: Bytes, range: ByteRange, contents: Bytes)
    : (r: seq<IncrementalObject>)
    requires k < |objs| && |RangeNumbers(range)| + 2 <= BYTE_RANGE_SLOT_LEN && 2 * |contents| <= CONTENTS_HEX_LEN
  {
    objs[k := objs[k].(body := FilledBody(kind, extra, range, contents))]
  }

  /** Both patches of the revision text, one after the other. */
  lemma PatchesFill(base: nat, objs: seq<IncrementalObject>, dict: Bytes, k: nat, kind: SigKind, extra: Bytes,
                    range: ByteRange, contents: Bytes)
    requires Blank(objs, k, kind, extra)
    requires |RangeNumbers(range)| + 2 <= BYTE_RANGE_SLOT_LEN && 2 * |contents| <= CONTENTS_HEX_LEN
    ensures BodyOffset(objs, k) + GtAt(kind) < |RevisionText(base, objs, dict)|
    ensures var t, at := RevisionText(base, objs, dict), BodyOffset(objs, k);
      var withRange := Patch(t, at + OpenAt(kind), RangeField(range, BYTE_RANGE_SLOT_LEN));
      Patch(withRange, at + LtAt(kind) + 1, HexUpper(contents))
        == RevisionText(base, Filled(objs, k, kind, extra, range, contents), dict)
    ensures var filled := Filled(objs, k, kind, extra, range, contents);
            BodyOffset(filled, k) == BodyOffset(objs, k) && XrefOffset(base, filled) == XrefOffset(base, objs)
  {
    hide Patch, RevisionText, BodyOffset, XrefOffset, Entries, SigBody, RangeField, HexUpper, HexSlot, OpenAt,
         PatchBody;
    var field, hex, zeros := RangeField(range, BYTE_RANGE_SLOT_LEN), HexUpper(contents), Fill(CONTENTS_HEX_LEN, 0x30);
    PatchRangeSlot(kind, BlankRange(), field, zeros, extra);
    PatchContentsSlot(kind, field, zeros, extra, hex);
    HexOverZeros(contents);
    var once := PatchBody(objs, k, OpenAt(kind), field);
    PatchRevision(base, objs, dict, k, OpenAt(kind), field);
    BodyOffsetSame(objs, once, k);
    PatchRevision(base, once, dict, k, LtAt(kind) + 1, hex);
    var twice := PatchBody(once, k, LtAt(kind) + 1, hex);
    BodyOffsetSame(once, twice, k);
    assert twice == Filled(objs, k, kind, extra, range, contents);
    SlotInside(base, objs, dict, k, kind, extra);
  }

  lemma BodyOffsetSame(a: seq<IncrementalObject>, b: seq<IncrementalObject>, k: nat)
    requires k < |a| == |b| && a[..k] == b[..k] && a[k].key == b[k].key
    ensures BodyOffset(a, k) == BodyOffset(b, k)
  {
  }

  lemma SlotInside(base: nat, objs: seq<IncrementalObject>, dict: Bytes, k: nat, kind: SigKind, extra: Bytes)
    requires Blank(objs, k, kind, extra)
    ensures BodyOffset(objs, k) + GtAt(kind) < |RevisionText(base, objs, dict)|
  {
    hide ObjectsText, Entries, XrefText, Tail, SigDictBody, OpenAt, BodyOffset;
    BodyFree(kind, extra);
    PatchObjects(objs, k, |objs[k].body|, []);
  }

  /** The revision that sealing the blank layout leaves behind. */
  function SealedRevision(pdf: Bytes, objs: seq<IncrementalObject>, trailer: Dict, dict: Bytes, k: nat, kind: SigKind,
                          extra: Bytes, signed: Bytes, contents: Bytes, name: Bytes, returned: Option<Evidence>)
    : (r: Revision)
    requires Blank(objs, k, kind, extra) && 2 * |contents| <= CONTENTS_HEX_LEN
    requires RangeFits(pdf, objs, dict, k, kind)
  {
    var range := RangeOf(pdf, objs, dict, k, kind);
    Revision(|pdf|, Filled(objs, k, kind, extra, range, contents), trailer, dict,
             Sealed(kind, k, extra, range, signed, contents, name, returned))
  }

  /** The range of the signature of a layout appended to `pdf`, and whether its numbers fit the slot. */
  function RangeOf(pdf: Bytes, objs: seq<IncrementalObject>, dict: Bytes, k: nat, kind: SigKind): (r: ByteRange)
    requires k < |objs|
  {
    var at := |pdf| + BodyOffset(objs, k);
    var size := |pdf| + |RevisionText(|pdf|, objs, dict)|;
    if at + GtAt(kind) < size then Compute(at + LtAt(kind), at + GtAt(kind), size) else ByteRange(0, 0, 0, 0)
  }

  predicate RangeFits(pdf: Bytes, objs: seq<IncrementalObject>, dict: Bytes, k: nat, kind: SigKind) {
    k < |objs| && |RangeNumbers(RangeOf(pdf, objs, dict, k, kind))| + 2 <= BYTE_RANGE_SLOT_LEN
  }

  /** The file after the layout is appended and its range slot written: what the signer is given. */
  function WithRange(pdf: Bytes, objs: seq<IncrementalObject>, dict: Bytes, k: nat, kind: SigKind,
                     extra: Bytes): (r: Bytes)
    requires Blank(objs, k, kind, extra) && RangeFits(pdf, objs, dict, k, kind)
    ensures |r| == |pdf| + |RevisionText(|pdf|, objs, dict)|
  {
    SlotInside(|pdf|, objs, dict, k, kind, extra);
    Patch(pdf + RevisionText(|pdf|, objs, dict), |pdf| + BodyOffset(objs, k) + OpenAt(kind),
          RangeField(RangeOf(pdf, objs, dict, k, kind), BYTE_RANGE_SLOT_LEN))
  }

  lemma SealedText(pdf: Bytes, objs: seq<IncrementalObject>, dict: Bytes, k: nat, kind: SigKind, extra: Bytes,
                   contents: Bytes)
    requires Blank(objs, k, kind, extra) && 2 * |contents| <= CONTENTS_HEX_LEN && RangeFits(pdf, objs, dict, k, kind)
    ensures var at := |pdf| + BodyOffset(objs, k); var range := RangeOf(pdf, objs, dict, k, kind);
            && at + LtAt(kind) + 1 + |HexUpper(contents)| <= |WithRange(pdf, objs, dict, k, kind, extra)|
            && Patch(WithRange(pdf, objs, dict, k, kind, extra), at + LtAt(kind) + 1, HexUpper(contents))
                 == pdf + RevisionText(|pdf|, Filled(objs, k, kind, extra, range, contents), dict)
  {
    hide Patch, RevisionText, BodyOffset, RangeOf, RangeField, HexUpper, OpenAt, Filled;
    var range, at := RangeOf(pdf, objs, dict, k, kind), BodyOffset(objs, k);
    var t, field := RevisionText(|pdf|, objs, dict), RangeField(range, BYTE_RANGE_SLOT_LEN);
    PatchesFill(|pdf|, objs, dict, k, kind, extra, range, contents);
    PatchRight(pdf, t, at + OpenAt(kind), field);
    PatchRight(pdf, Patch(t, at + OpenAt(kind), field), at + LtAt(kind) + 1, HexUpper(contents));
  }

  /** Sealing leaves a sound revision whose signed bytes are what the signer was given. */
  lemma Seals(pdf: Bytes, objs: seq<IncrementalObject>, trailer: Dict, dict: Bytes, k: nat, kind: SigKind, extra: Bytes,
              contents: Bytes, name: Bytes, returned: Option<Evidence>)
    requires Blank(objs, k, kind, extra) && 2 * |contents| <= CONTENTS_HEX_LEN && RangeFits(pdf, objs, dict, k, kind)
    requires AscendingIds(objs)
    ensures var range := RangeOf(pdf, objs, dict, k, kind);
            var before := WithRange(pdf, objs, dict, k, kind, extra);
            var signed := Extract(before, range);
            var r := SealedRevision(pdf, objs, trailer, dict, k, kind, extra, signed, contents, name, returned);
            && |pdf| + BodyOffset(objs, k) + LtAt(kind) + 1 + |HexUpper(contents)| <= |before|
            && Patch(before, |pdf| + BodyOffset(objs, k) + LtAt(kind) + 1, HexUpper(contents)) == pdf + Text(r)
            && RevisionOk(pdf + Text(r), r) && StartXref(r) == XrefOffset(|pdf|, objs)
  {
    hide Patch, RevisionText, BodyOffset, RangeField, OpenAt, HexUpper, WithRange, Extract, SigBody, HexSlot,
         XrefOffset;
    var range, at := RangeOf(pdf, objs, dict, k, kind), |pdf| + BodyOffset(objs, k);
    var before := WithRange(pdf, objs, dict, k, kind, extra);
    var lt, gt := at + LtAt(kind), at + GtAt(kind);
    SlotInside(|pdf|, objs, dict, k, kind, extra);
    SealedText(pdf, objs, dict, k, kind, extra, contents);
    PatchesFill(|pdf|, objs, dict, k, kind, extra, range, contents);
    ExtractUnaffected(before, lt, gt, HexUpper(contents), []);
    var after := Patch(before, lt + 1, HexUpper(contents));
    assert after + [] == after;
    ExtractComputed(after, lt, gt);
    var r := SealedRevision(pdf, objs, trailer, dict, k, kind, extra, Extract(before, range), contents, name, returned);
    assert after[gt + 1..End(r)] == after[gt + 1..];
    AtMiddle(pdf, Text(r), []);
    assert pdf + Text(r) + [] == pdf + Text(r);
  }
}
