/**
 ByteRange arithmetic and the two placeholder patches (src/lib/pades/PdfByteRange.cpp,
 src/lib/pades/PadesBuilder.cpp:47-56, 276-310), with the reader each patch is written for.
 */
module PdfByteRange {
  import opened ByteStrings
  import opened Decimal
  import opened Der

  datatype ByteRange = ByteRange(offset1: nat, length1: nat, offset2: nat, length2: nat)

  /** Everything but the /Contents string with its two delimiters: [0, lt) and (gt, end). */
  function Compute(lt: nat, gt: nat, fileSize: nat): (br: ByteRange)
    requires lt < gt < fileSize
  {
    ByteRange(0, lt, gt + 1, fileSize - gt - 1)
  }

  /** ExtractSignedBytes: each range is taken only when it lies inside the file. */
  function Extract(pdf: Bytes, br: ByteRange): (r: Bytes) {
    (if br.offset1 <= |pdf| && br.length1 <= |pdf| - br.offset1
     then pdf[br.offset1..br.offset1 + br.length1] else []) +
    (if br.offset2 <= |pdf| && br.length2 <= |pdf| - br.offset2
     then pdf[br.offset2..br.offset2 + br.length2] else [])
  }

  /** The excluded bytes are exactly the string and its delimiters; the rest is extracted in order. */
  lemma ExtractComputed(pdf: Bytes, lt: nat, gt: nat)
    requires lt < gt < |pdf|
    ensures Extract(pdf, Compute(lt, gt, |pdf|)) == pdf[..lt] + pdf[gt + 1..]
  {
  }

  /** Neither a write strictly between the delimiters nor bytes appended later are visible to the range. */
  lemma ExtractUnaffected(pdf: Bytes, lt: nat, gt: nat, hex: Bytes, more: Bytes)
    requires lt < gt < |pdf| && |hex| <= gt - lt - 1
    ensures Extract(Patch(pdf, lt + 1, hex) + more, Compute(lt, gt, |pdf|)) == Extract(pdf, Compute(lt, gt, |pdf|))
  {
    var after := Patch(pdf, lt + 1, hex) + more;
    assert after[..lt] == pdf[..lt];
    assert after[gt + 1..gt + 1 + (|pdf| - gt - 1)] == pdf[gt + 1..];
  }

  // ---- The /ByteRange slot -------------------------------------------------------------------------

  const OPEN: Bytes := [0x5B, 0x20, 0x30, 0x20]

  /** "[ 0 " and the three numbers, without the padding and the closing bracket. */
  function RangeNumbers(br: ByteRange): (r: Bytes) {
    OPEN + Dec(br.length1) + SPACE + Dec(br.offset2) + SPACE + Dec(br.length2)
  }

  function RangeField(br: ByteRange, slot: nat): (r: Bytes)
    requires |RangeNumbers(br)| + 2 <= slot
    ensures |r| == slot
  {
    RangeNumbers(br) + Fill(slot - |RangeNumbers(br)| - 1, 0x20) + [0x5D]
  }

  /** WriteByteRange. */
  function WriteByteRange(pdf: Bytes, open: int, close: int, br: ByteRange): (r: Option<Bytes>)
    ensures r.Some? ==> 0 <= open <= close < |pdf| && |r.value| == |pdf|
    ensures r.Some? ==> |RangeNumbers(br)| + 2 <= close - open + 1
    ensures r.Some? ==> r.value == Patch(pdf, open, RangeField(br, close - open + 1))
  {
    if open < 0 || open >= |pdf| || close >= |pdf| || close < open then None
    else if |RangeNumbers(br)| + 2 > close - open + 1 then None
    else Some(Patch(pdf, open, RangeField(br, close - open + 1)))
  }

  lemma TwentyDigits(n: nat)
    requires n < 0x1_0000_0000_0000_0000
    ensures |Dec(n)| <= 20
  {
    DecLength(n, 20);
    assert Pow10(5) == 10 * (10 * (10 * (10 * (10 * Pow10(0)))));
    assert Pow10(10) == 10 * (10 * (10 * (10 * (10 * Pow10(5)))));
    assert Pow10(15) == 10 * (10 * (10 * (10 * (10 * Pow10(10)))));
    assert Pow10(20) == 10 * (10 * (10 * (10 * (10 * Pow10(15)))));
  }

  /** Any three 64-bit numbers fit the 80-byte slot. */
  lemma SlotAlwaysFits(br: ByteRange)
    requires br.length1 < 0x1_0000_0000_0000_0000
    requires br.offset2 < 0x1_0000_0000_0000_0000 && br.length2 < 0x1_0000_0000_0000_0000
    ensures |RangeNumbers(br)| + 2 <= 80
  {
    hide Dec;
    TwentyDigits(br.length1);
    TwentyDigits(br.offset2);
    TwentyDigits(br.length2);
  }

  /** The next integer of a PDF array. */
  function NextInt(s: Bytes, pos: nat): (r: Option<Number>)
    requires pos <= |s|
    ensures r.Some? ==> pos < r.value.next <= |s|
  {
    ReadNumber(s, SpacesEnd(s, pos))
  }

  /** The four integers of an array that opens at `pos`. */
  function ReadRange(s: Bytes, pos: nat): (r: Option<ByteRange>) {
    if !At(s, pos, [0x5B]) then None else
    var a := NextInt(s, pos + 1);
    if a.None? then None else
    var b := NextInt(s, a.value.next);
    if b.None? then None else
    var c := NextInt(s, b.value.next);
    if c.None? then None else
    var d := NextInt(s, c.value.next);
    if d.None? then None else
    var e := SpacesEnd(s, d.value.next);
    if At(s, e, [0x5D]) then Some(ByteRange(a.value.value, b.value.value, c.value.value, d.value.value)) else None
  }

  lemma SpacesEndAt(s: Bytes, pos: nat, k: nat)
    requires At(s, pos, Fill(k, 0x20)) && pos + k < |s| && !IsSpace(s[pos + k])
    ensures SpacesEnd(s, pos) == pos + k
  {
    forall i | pos <= i < pos + k ensures s[i] == 0x20 { AtIndex(s, pos, Fill(k, 0x20), i - pos); }
  }

  lemma NextIntAt(s: Bytes, pos: nat, n: nat)
    requires At(s, pos, SPACE) && At(s, pos + 1, Dec(n))
    requires pos + 1 + |Dec(n)| < |s| && s[pos + 1 + |Dec(n)|] == 0x20
    ensures NextInt(s, pos) == Some(Number(n, pos + 1 + |Dec(n)|))
  {
    hide ReadNumber, Dec, At;
    DecRoundTrip(n);
    AtIndex(s, pos + 1, Dec(n), 0);
    AtIndex(s, pos, SPACE, 0);
    assert SpacesEnd(s, pos) == pos + 1;
    ReadDec(s, pos + 1, n);
  }

  lemma RangeFieldParts(s: Bytes, pos: nat, br: ByteRange, slot: nat)
    requires |RangeNumbers(br)| + 2 <= slot && At(s, pos, RangeField(br, slot))
    ensures var p := pos + 4 + |Dec(br.length1)|; var q := p + 1 + |Dec(br.offset2)|;
            var n := |RangeNumbers(br)|;
            && At(s, pos, OPEN) && At(s, pos + 4, Dec(br.length1))
            && At(s, p, SPACE) && At(s, p + 1, Dec(br.offset2))
            && At(s, q, SPACE) && At(s, q + 1, Dec(br.length2))
            && pos + n == q + 1 + |Dec(br.length2)|
            && At(s, pos + n, Fill(slot - n - 1, 0x20)) && At(s, pos + slot - 1, [0x5D])
  {
    hide Dec, At;
    var a, b, c := Dec(br.length1), Dec(br.offset2), Dec(br.length2);
    AtSplit3(s, pos, RangeNumbers(br), Fill(slot - |RangeNumbers(br)| - 1, 0x20), [0x5D]);
    AtSplit3(s, pos, OPEN + a + SPACE + b, SPACE, c);
    AtSplit4(s, pos, OPEN, a, SPACE, b);
  }

  /** The printed field reads back as the range it was printed from. */
  lemma ReadRangeAt(s: Bytes, pos: nat, br: ByteRange, slot: nat)
    requires br.offset1 == 0 && |RangeNumbers(br)| + 2 <= slot && At(s, pos, RangeField(br, slot))
    ensures ReadRange(s, pos) == Some(br)
  {
    hide Dec, At, RangeField, NextInt, SpacesEnd;
    RangeFieldParts(s, pos, br, slot);
    var p := pos + 4 + |Dec(br.length1)|;
    var q := p + 1 + |Dec(br.offset2)|;
    var n := |RangeNumbers(br)|;
    ReadOpening(s, pos);
    AtIndex(s, p, SPACE, 0);
    AtIndex(s, q, SPACE, 0);
    AtIndex(s, pos + n, Fill(slot - n - 1, 0x20), 0);
    AtIndex(s, pos + slot - 1, [0x5D], 0);
    NextIntAt(s, pos + 3, br.length1);
    NextIntAt(s, p, br.offset2);
    NextIntAt(s, q, br.length2);
    SpacesEndAt(s, pos + n, slot - n - 1);
  }

  /** "[ 0 " opens the array and gives its first integer. */
  lemma ReadOpening(s: Bytes, pos: nat)
    requires At(s, pos, OPEN)
    ensures At(s, pos, [0x5B]) && At(s, pos + 3, SPACE) && pos + 4 <= |s|
    ensures NextInt(s, pos + 1) == Some(Number(0, pos + 3))
  {
    assert OPEN == [0x5B] + SPACE + Dec(0) + SPACE;
    AtSplit4(s, pos, [0x5B], SPACE, Dec(0), SPACE);
    AtIndex(s, pos + 3, SPACE, 0);
    NextIntAt(s, pos + 1, 0);
  }

  // ---- The /Contents slot --------------------------------------------------------------------------

  function HexDigit(v: nat): (c: Byte)
    requires v < 16
  {
    if v < 10 then 0x30 + v else 0x41 + v - 10
  }

  function HexUpper(data: Bytes): (r: Bytes)
    ensures |r| == 2 * |data|
  {
    seq(2 * |data|, i requires 0 <= i < 2 * |data| =>
      HexDigit(if i % 2 == 0 then data[i / 2] / 16 else data[i / 2] % 16))
  }

  /** Only the digits and the upper-case letters from A to F are written. */
  lemma HexIsUpper(data: Bytes, i: nat)
    requires i < |HexUpper(data)|
    ensures 0x30 <= HexUpper(data)[i] <= 0x39 || 0x41 <= HexUpper(data)[i] <= 0x46
  {
  }

  /** WriteContentsHex. */
  function WriteContentsHex(pdf: Bytes, lt: int, gt: int, der: Bytes): (r: Option<Bytes>)
    ensures r.Some? ==> 0 <= lt < gt < |pdf| && 2 * |der| <= gt - lt - 1
    ensures r.Some? ==> r.value == Patch(pdf, lt + 1, HexUpper(der))
  {
    if lt < 0 || lt >= |pdf| || gt >= |pdf| || gt <= lt || 2 * |der| > gt - lt - 1 then None
    else Some(Patch(pdf, lt + 1, HexUpper(der)))
  }

  function Nibble(c: Byte): (v: nat)
    ensures v < 16
  {
    match HexValue(c) case None => 0 case Some(v) => v
  }

  /** What a PDF reader makes of a hexadecimal string of even length. */
  function HexDecode(h: Bytes): (r: Bytes)
    ensures |r| == |h| / 2
  {
    seq(|h| / 2, i requires 0 <= i < |h| / 2 => Nibble(h[2 * i]) * 16 + Nibble(h[2 * i + 1]))
  }

  lemma HexRoundTrip(der: Bytes, k: nat)
    ensures HexDecode(HexUpper(der) + Fill(2 * k, 0x30)) == der + Fill(k, 0)
  {
    var slot := HexUpper(der) + Fill(2 * k, 0x30);
    var want := der + Fill(k, 0);
    forall i | 0 <= i < |want| ensures HexDecode(slot)[i] == want[i] {
      if i < |der| {
        assert slot[2 * i] == HexDigit(der[i] / 16);
        assert slot[2 * i + 1] == HexDigit(der[i] % 16);
      }
    }
  }

  /** DerLength: where the outer SEQUENCE ends, or the whole buffer when there is none. */
  function DerLength(w: WordSize, der: Bytes): (n: nat)
    ensures n <= |der|
  {
    if |der| < 2 || der[0] != 0x30 then |der|
    else match Tlv(w, der, 0, |der|) case None => |der| case Some(tlv) => tlv.next
  }

  /** TrimDer: drops the padding after the outer element. */
  function TrimDer(w: WordSize, data: Bytes): (r: Bytes) { data[..DerLength(w, data)] }

  /** What does not start with a complete SEQUENCE is left as it is. */
  lemma TrimKeepsOther(w: WordSize, data: Bytes)
    requires data == [] || data[0] != 0x30 || Tlv(w, data, 0, |data|).None?
    ensures TrimDer(w, data) == data
  {
    hide Tlv;
    assert data[..|data|] == data;
  }

  /** A SEQUENCE that fills its buffer exactly. */
  predicate WholeSequence(w: WordSize, der: Bytes) {
    |der| >= 2 && der[0] == 0x30 && Tlv(w, der, 0, |der|).Some? && Tlv(w, der, 0, |der|).value.next == |der|
  }

  /** Writing a signature over the zero placeholder, decoding the whole slot and trimming it gives the
      signature back. */
  lemma ContentsRoundTrip(w: WordSize, der: Bytes, k: nat)
    requires WholeSequence(w, der)
    ensures TrimDer(w, HexDecode(HexUpper(der) + Fill(2 * k, 0x30))) == der
  {
    hide HexDecode, Tlv;
    HexRoundTrip(der, k);
    var data := der + Fill(k, 0);
    TlvExtends(w, der, Fill(k, 0), |data|);
    assert data[..|der|] == der;
  }
}
