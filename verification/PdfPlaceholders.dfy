/**
 The signature dictionary with its two placeholders (src/lib/pades/PadesBuilder.cpp:30-31, 77-82), and the
 searches that locate them in an assembled revision (src/lib/pades/PadesBuilder.cpp:220-235).
 */
module PdfPlaceholders {
  import opened ByteStrings

  datatype SigKind = Signature | DocTimeStamp

  const CONTENTS_HEX_LEN: nat := 16384
  const BYTE_RANGE_SLOT_LEN: nat := 80

  function TypeName(kind: SigKind): (s: string) { if kind == Signature then "Sig" else "DocTimeStamp" }

  function SubFilter(kind: SigKind): (s: string) {
    if kind == Signature then "ETSI.CAdES.detached" else "ETSI.RFC3161"
  }

  /** Everything before the opening bracket of /ByteRange. */
  function Prefix(kind: SigKind): (r: Bytes) {
    Ascii("<</Type/") + PrefixTail(kind)
  }

  /** Between the closing bracket of /ByteRange and the hexadecimal digits. */
  function Middle(): (r: Bytes) { Ascii("/Contents <") }

  /** A signature dictionary with the given contents of its two slots. */
  function SigBody(kind: SigKind, range: Bytes, hex: Bytes, extra: Bytes): (r: Bytes) {
    Prefix(kind) + range + Middle() + hex + ([0x3E] + extra + [0x3E, 0x3E])
  }

  function BlankRange(): (r: Bytes)
    ensures |r| == BYTE_RANGE_SLOT_LEN
  {
    [0x5B] + Fill(BYTE_RANGE_SLOT_LEN - 2, 0x20) + [0x5D]
  }

  /** SigDictBody: blanks in the range slot, zeros in the contents slot. */
  function SigDictBody(kind: SigKind, extra: Bytes): (r: Bytes) {
    SigBody(kind, BlankRange(), Fill(CONTENTS_HEX_LEN, 0x30), extra)
  }

  /** The offsets of the four delimiters inside the dictionary. */
  function OpenAt(kind: SigKind): (p: nat) { |Prefix(kind)| }
  function CloseAt(kind: SigKind): (p: nat) { OpenAt(kind) + BYTE_RANGE_SLOT_LEN - 1 }
  function LtAt(kind: SigKind): (p: nat) { OpenAt(kind) + BYTE_RANGE_SLOT_LEN + 10 }
  function GtAt(kind: SigKind): (p: nat) { LtAt(kind) + 1 + CONTENTS_HEX_LEN }

  // ---- Locating the placeholders -----------------------------------------------------------------

  /** The four absolute positions a revision reports. */
  datatype Slots = Slots(open: int, close: int, lt: int, gt: int)

  /** The searches of AssembleRevision, from the start of the object's body on. */
  function Locate(bytes: Bytes, base: nat, body: nat, found: Slots): (r: Slots)
  {
    var br := Find(bytes, Ascii("/ByteRange ["), body);
    var contents := Find(bytes, Middle(), body);
    var withRange := if br == -1 then found else
      var open := Find(bytes, [0x5B], br);
      var close := Find(bytes, [0x5D], if open == -1 then |bytes| else open);
      found.(open := base + open, close := base + close);
    if contents == -1 then withRange else
      var lt := Find(bytes, [0x3C], contents);
      var gt := Find(bytes, [0x3E], if lt == -1 then |bytes| else lt);
      withRange.(lt := base + lt, gt := base + gt)
  }

  lemma FreeConcat(a: Bytes, b: Bytes, c: Byte)
    requires Free(a, c) && Free(b, c)
    ensures Free(a + b, c)
  {
  }

  lemma TypeNameFree(kind: SigKind)
    ensures Free(Ascii(TypeName(kind)), 0x5B) && Free(Ascii(TypeName(kind)), 0x3C)
  {
  }

  lemma SubFilterFree(kind: SigKind)
    ensures Free(Ascii(SubFilter(kind)), 0x5B) && Free(Ascii(SubFilter(kind)), 0x3C)
  {
  }

  lemma FilterFree()
    ensures Free(Ascii("/Filter/"), 0x5B) && Free(Ascii("/Filter/"), 0x3C)
    ensures Free(Ascii("/SubFilter/"), 0x5B) && Free(Ascii("/SubFilter/"), 0x3C)
  {
  }

  lemma HandlerFree()
    ensures Free(Ascii("Adobe.PPKLite"), 0x5B) && Free(Ascii("Adobe.PPKLite"), 0x3C)
  {
  }

  lemma KeyFree()
    ensures Free(Ascii("/ByteRange "), 0x5B) && Free(Ascii("/ByteRange "), 0x3C)
    ensures Free(Ascii("<</Type/"), 0x5B)
  {
  }

  /** Prefix without its first piece. */
  function PrefixTail(kind: SigKind): (r: Bytes) { Names(kind) + Ascii("/ByteRange ") }

  function Names(kind: SigKind): (r: Bytes) {
    Ascii(TypeName(kind)) + Ascii("/Filter/") + Ascii("Adobe.PPKLite") + Ascii("/SubFilter/") +
    Ascii(SubFilter(kind))
  }

  lemma PrefixTailFree(kind: SigKind, c: Byte)
    requires c == 0x5B || c == 0x3C
    ensures Free(PrefixTail(kind), c)
  {
    hide Ascii, Free;
    TypeNameFree(kind);
    SubFilterFree(kind);
    FilterFree();
    HandlerFree();
    KeyFree();
    var a, b, d := Ascii(TypeName(kind)), Ascii("/Filter/"), Ascii("Adobe.PPKLite");
    var e, f := Ascii("/SubFilter/"), Ascii(SubFilter(kind));
    FreeConcat(a, b, c);
    FreeConcat(a + b, d, c);
    FreeConcat(a + b + d, e, c);
    FreeConcat(a + b + d + e, f, c);
    FreeConcat(a + b + d + e + f, Ascii("/ByteRange "), c);
  }

  lemma LiteralTails()
    ensures Ascii("/ByteRange [") == Ascii("/ByteRange ") + [0x5B]
    ensures Middle() == Ascii("/Contents ") + [0x3C] && Free(Ascii("/Contents "), 0x3C)
  {
  }

  /** Where the pieces of a signature dictionary lie. */
  lemma BodyParts(kind: SigKind, range: Bytes, hex: Bytes, extra: Bytes)
    requires |range| == BYTE_RANGE_SLOT_LEN && |hex| == CONTENTS_HEX_LEN
    ensures var b := SigBody(kind, range, hex, extra);
            && At(b, 0, Ascii("<</Type/")) && At(b, 8, PrefixTail(kind)) && 8 + |PrefixTail(kind)| == OpenAt(kind)
            && At(b, OpenAt(kind), range) && At(b, CloseAt(kind) + 1, Middle())
            && At(b, LtAt(kind) + 1, hex) && At(b, GtAt(kind), [0x3E])
  {
    hide At, PrefixTail, Ascii;
    var b := SigBody(kind, range, hex, extra);
    var end := [0x3E] + extra + [0x3E, 0x3E];
    AtWhole(b);
    AtSplit(b, 0, Prefix(kind) + range + Middle() + hex, end);
    AtSplit4(b, 0, Prefix(kind), range, Middle(), hex);
    AtSplit(b, 0, Ascii("<</Type/"), PrefixTail(kind));
    AtSplit3(b, GtAt(kind), [0x3E], extra, [0x3E, 0x3E]);
  }

  /** No '[' before the range slot, and no '<' between the eighth byte and the contents slot. */
  lemma BodyFree(kind: SigKind, extra: Bytes)
    ensures |SigDictBody(kind, extra)| > GtAt(kind)
    ensures forall i :: 0 <= i < OpenAt(kind) ==> SigDictBody(kind, extra)[i] != 0x5B
    ensures forall i :: 8 <= i < LtAt(kind) ==> SigDictBody(kind, extra)[i] != 0x3C
  {
    hide At, PrefixTail, Names, Ascii, SigBody;
    BodyParts(kind, BlankRange(), Fill(CONTENTS_HEX_LEN, 0x30), extra);
    LiteralTails();
    KeyFree();
    PrefixTailFree(kind, 0x5B);
    PrefixTailFree(kind, 0x3C);
    var b := SigDictBody(kind, extra);
    AtIndex(b, GtAt(kind), [0x3E], 0);
    AtSplit(b, CloseAt(kind) + 1, Ascii("/Contents "), [0x3C]);
    FreeAt(b, 0, Ascii("<</Type/"), 0x5B);
    FreeAt(b, 8, PrefixTail(kind), 0x5B);
    FreeAt(b, 8, PrefixTail(kind), 0x3C);
    FreeAt(b, OpenAt(kind), BlankRange(), 0x3C);
    FreeAt(b, CloseAt(kind) + 1, Ascii("/Contents "), 0x3C);
  }

  lemma FreeAt(s: Bytes, off: nat, piece: Bytes, c: Byte)
    requires At(s, off, piece) && Free(piece, c)
    ensures off + |piece| <= |s| && forall i :: off <= i < off + |piece| ==> s[i] != c
  {
    forall i | off <= i < off + |piece| ensures s[i] != c { AtIndex(s, off, piece, i - off); }
  }

  /** The two keys lie in front of their slots. */
  lemma KeysAt(kind: SigKind, extra: Bytes)
    ensures At(SigDictBody(kind, extra), OpenAt(kind) - 11, Ascii("/ByteRange ["))
    ensures At(SigDictBody(kind, extra), LtAt(kind) - 10, Middle())
    ensures At(SigDictBody(kind, extra), OpenAt(kind), BlankRange())
    ensures At(SigDictBody(kind, extra), LtAt(kind), [0x3C])
    ensures At(SigDictBody(kind, extra), LtAt(kind) + 1, Fill(CONTENTS_HEX_LEN, 0x30))
    ensures At(SigDictBody(kind, extra), GtAt(kind), [0x3E])
  {
    hide At, SigBody, Ascii, Names;
    var b := SigDictBody(kind, extra);
    BodyParts(kind, BlankRange(), Fill(CONTENTS_HEX_LEN, 0x30), extra);
    LiteralTails();
    AtSplit(b, 8, Names(kind), Ascii("/ByteRange "));
    AtSplit(b, CloseAt(kind) + 1, Ascii("/Contents "), [0x3C]);
    AtSplit3(b, OpenAt(kind), [0x5B], Fill(BYTE_RANGE_SLOT_LEN - 2, 0x20), [0x5D]);
    AtJoin(b, OpenAt(kind) - 11, Ascii("/ByteRange "), [0x5B]);
  }

  lemma KeyFits(kind: SigKind)
    ensures OpenAt(kind) >= 19
  {
  }

  /** AssembleRevision's searches find exactly the placeholders of the dictionary it has just appended. */
  lemma Located(bytes: Bytes, base: nat, p: nat, kind: SigKind, extra: Bytes, found: Slots)
    requires At(bytes, p, SigDictBody(kind, extra))
    ensures Locate(bytes, base, p, found)
              == Slots(base + p + OpenAt(kind), base + p + CloseAt(kind), base + p + LtAt(kind), base + p + GtAt(kind))
  {
    hide At, SigDictBody, Prefix, PrefixTail, Ascii, Middle;
    KeyFits(kind);
    LocatedRange(bytes, p, kind, extra);
    LocatedContents(bytes, p, kind, extra);
  }

  lemma LocatedRange(bytes: Bytes, p: nat, kind: SigKind, extra: Bytes)
    requires At(bytes, p, SigDictBody(kind, extra))
    ensures Find(bytes, Ascii("/ByteRange ["), p) == p + OpenAt(kind) - 11
    ensures Find(bytes, [0x5B], p + OpenAt(kind) - 11) == p + OpenAt(kind)
    ensures Find(bytes, [0x5D], p + OpenAt(kind)) == p + CloseAt(kind)
  {
    hide At, SigDictBody, Prefix, PrefixTail, Find;
    var b := SigDictBody(kind, extra);
    KeyFits(kind);
    KeysAt(kind, extra);
    BodyFree(kind, extra);
    LiteralTails();
    AtTrans(bytes, p, b, OpenAt(kind) - 11, Ascii("/ByteRange ["));
    AtTrans(bytes, p, b, OpenAt(kind), BlankRange());
    AtSplit3(bytes, p + OpenAt(kind), [0x5B], Fill(BYTE_RANGE_SLOT_LEN - 2, 0x20), [0x5D]);
    forall i | p <= i < p + OpenAt(kind) ensures bytes[i] != 0x5B { AtIndex(bytes, p, b, i - p); }
    forall i | p + OpenAt(kind) <= i < p + CloseAt(kind) ensures bytes[i] != 0x5D {
      AtIndex(bytes, p + OpenAt(kind), BlankRange(), i - p - OpenAt(kind));
    }
    FindAt(bytes, Ascii("/ByteRange ["), p, p + OpenAt(kind) - 11, 11);
    FindAt(bytes, [0x5B], p + OpenAt(kind) - 11, p + OpenAt(kind), 0);
    FindAt(bytes, [0x5D], p + OpenAt(kind), p + CloseAt(kind), 0);
  }

  lemma LocatedContents(bytes: Bytes, p: nat, kind: SigKind, extra: Bytes)
    requires At(bytes, p, SigDictBody(kind, extra))
    ensures Find(bytes, Middle(), p) == p + LtAt(kind) - 10
    ensures Find(bytes, [0x3C], p + LtAt(kind) - 10) == p + LtAt(kind)
    ensures Find(bytes, [0x3E], p + LtAt(kind)) == p + GtAt(kind)
  {
    hide At, SigDictBody, Prefix, PrefixTail, Find;
    var b := SigDictBody(kind, extra);
    KeyFits(kind);
    KeysAt(kind, extra);
    BodyFree(kind, extra);
    LiteralTails();
    AtTrans(bytes, p, b, LtAt(kind) - 10, Middle());
    AtTrans(bytes, p, b, LtAt(kind), [0x3C]);
    AtTrans(bytes, p, b, LtAt(kind) + 1, Fill(CONTENTS_HEX_LEN, 0x30));
    AtTrans(bytes, p, b, GtAt(kind), [0x3E]);
    AtIndex(bytes, p + LtAt(kind), [0x3C], 0);
    forall i | p + 8 <= i < p + LtAt(kind) ensures bytes[i] != 0x3C { AtIndex(bytes, p, b, i - p); }
    forall i | p + LtAt(kind) + 1 <= i < p + GtAt(kind) ensures bytes[i] == 0x30 {
      AtIndex(bytes, p + LtAt(kind) + 1, Fill(CONTENTS_HEX_LEN, 0x30), i - p - LtAt(kind) - 1);
    }
    FindAt(bytes, Middle(), p, p + LtAt(kind) - 10, 10);
    FindAt(bytes, [0x3C], p + LtAt(kind) - 10, p + LtAt(kind), 0);
    FindAt(bytes, [0x3E], p + LtAt(kind), p + GtAt(kind), 0);
  }
}
