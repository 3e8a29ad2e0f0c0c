/**
 The trailer of an incremental revision (src/lib/pades/PadesBuilder.cpp:241-273) and the search for the last
 startxref that a later update starts from (src/lib/pades/PadesBuilder.cpp:120-138).
 */
module PdfTrailer {
  import opened ByteStrings
  import opened Decimal

  datatype ObjGen = ObjGen(id: nat, gen: nat)

  /** PDF objects as far as a trailer dictionary needs them; everything else is opaque printed text. */
  datatype Obj = Int(n: int) | Ref(key: ObjGen) | Str(s: Bytes) | Arr(items: seq<Obj>) | Opaque(text: Bytes)

  type Dict = map<string, Obj>

  const INT64_LIMIT: nat := 0x8000_0000_0000_0000

  /** A 64-bit number converted to a signed one, in two's complement. */
  function Signed64(n: nat): (r: int) {
    var m := n % UINT64_LIMIT;
    if m < INT64_LIMIT then m else m - UINT64_LIMIT
  }

  /** The conversion keeps exactly the numbers below 2^63. */
  lemma Signed64IsExact(n: nat)
    requires n < UINT64_LIMIT
    ensures Signed64(n) == n <==> n < INT64_LIMIT
    ensures n >= INT64_LIMIT ==> Signed64(n) < 0
  {
  }

  /** Keys of a cross-reference stream that a classic table must not inherit. */
  const STREAM_KEYS: set<string> := {"/Type", "/W", "/Index", "/Length", "/Filter", "/DecodeParms", "/DL", "/XRefStm"}

  function OldSize(trailer: Dict): (n: int) {
    if "/Size" in trailer && trailer["/Size"].Int? then trailer["/Size"].n else 0
  }

  /** The trailer before its /ID is renewed. */
  function Reworked(trailer: Dict, root: ObjGen, maxId: nat, prev: nat): (r: Dict) {
    var kept := trailer - STREAM_KEYS;
    var size := if OldSize(kept) > maxId + 1 then OldSize(kept) else maxId + 1;
    kept["/Size" := Int(size)]["/Root" := Ref(root)]["/Prev" := Int(Signed64(prev))]
  }

  /** The first element of /ID, if the trailer has one. */
  function DocumentId(trailer: Dict): (r: Option<Bytes>) {
    if "/ID" in trailer && trailer["/ID"].Arr? && |trailer["/ID"].items| > 0 && trailer["/ID"].items[0].Str?
    then Some(trailer["/ID"].items[0].s) else None
  }

  function NextTrailer(trailer: Dict, root: ObjGen, maxId: nat, prev: nat, revisionId: Bytes): (r: Dict) {
    var reworked := Reworked(trailer, root, maxId, prev);
    var documentId := match DocumentId(reworked) case None => revisionId case Some(id) => id;
    reworked["/ID" := Arr([Str(documentId), Str(revisionId)])]
  }

  /** What a revision's trailer promises: it links back to the previous section as far as a signed 64-bit number can,
      its size covers every object number used so far and no more than it must, nothing of a cross-reference stream is
      left, the document identity never changes once there is one, and the second identity is the revision's. */
  lemma TrailerPromises(trailer: Dict, root: ObjGen, maxId: nat, prev: nat, revisionId: Bytes)
    ensures var t := NextTrailer(trailer, root, maxId, prev, revisionId);
            && "/Prev" in t && t["/Prev"] == Int(Signed64(prev))
            && "/Root" in t && t["/Root"] == Ref(root)
            && OldSize(t) > maxId && OldSize(t) >= OldSize(trailer)
            && (OldSize(t) == maxId + 1 || OldSize(t) == OldSize(trailer))
            && (DocumentId(trailer).Some? ==> DocumentId(t) == DocumentId(trailer))
            && DocumentId(t).Some?
            && t["/ID"] == Arr([Str(DocumentId(t).value), Str(revisionId)])
            && (DocumentId(trailer).None? ==> DocumentId(t) == Some(revisionId))
            && t.Keys !! {"/Type", "/W", "/Index", "/Length", "/Filter", "/DecodeParms", "/DL", "/XRefStm"}
            && (forall k :: k in trailer && k !in STREAM_KEYS && k !in {"/Size", "/Root", "/Prev", "/ID"} ==>
                  k in t && t[k] == trailer[k])
  {
  }

  // ---- Text --------------------------------------------------------------------------------------

  const TRAILER: Bytes := Ascii("trailer\n")
  const STARTXREF: Bytes := Ascii("startxref")
  const EOF: Bytes := Ascii("\n%%EOF\n")

  /** From "trailer" to the end of the revision. */
  function Tail(dict: Bytes, startxref: nat): (r: Bytes) {
    TRAILER + dict + [0x0A] + (STARTXREF + [0x0A] + Dec(startxref) + EOF)
  }

  /** ParseLastStartXref, exactly: the number after the last keyword, unless it is missing or too large. */
  function LastStartXref(pdf: Bytes): (r: Option<nat>) {
    var marker := RFind(pdf, STARTXREF, |pdf|);
    if marker == -1 then None else
      var pos := SpacesEnd(pdf, marker + 9);
      var e := DigitsEnd(pdf, pos);
      if e == pos || DecValue(pdf[pos..e]) >= UINT64_LIMIT then None else Some(DecValue(pdf[pos..e]))
  }

  lemma DecValueStep(s: Bytes, pos: nat, i: nat)
    requires pos <= i < |s| && AllDigits(s[pos..i]) && IsDigit(s[i])
    ensures AllDigits(s[pos..i + 1])
    ensures DecValue(s[pos..i + 1]) == DecValue(s[pos..i]) * 10 + (s[i] - 48)
  {
    var t := s[pos..i + 1];
    assert t[..|t| - 1] == s[pos..i];
  }

  /** More digits never make the number smaller. */
  lemma {:induction false} DecValueGrows(s: Bytes, pos: nat, i: nat, e: nat)
    requires pos <= i <= e <= |s| && AllDigits(s[pos..e])
    ensures AllDigits(s[pos..i]) && DecValue(s[pos..i]) <= DecValue(s[pos..e])
    decreases e - i
  {
    var t := s[pos..e];
    assert s[pos..i] == t[..i - pos];
    if i < e {
      assert t[i - pos] == s[i];
      DecValueStep(s, pos, i);
      DecValueGrows(s, pos, i + 1, e);
    }
  }

  method SkipSpaces(s: Bytes, start: nat) returns (pos: nat)
    requires start <= |s|
    ensures pos == SpacesEnd(s, start)
  {
    pos := start;
    while pos < |s| && IsSpace(s[pos])
      invariant start <= pos <= |s| && SpacesEnd(s, pos) == SpacesEnd(s, start)
    {
      pos := pos + 1;
    }
  }

  /** The digit loop over a 64-bit accumulator: it gives up exactly when the number would not fit. */
  method ReadUint64(s: Bytes, start: nat) returns (ok: bool, parsed: nat)
    requires start < |s|
    ensures var e := DigitsEnd(s, start);
            ok <==> DecValue(s[start..e]) < UINT64_LIMIT
    ensures ok ==> parsed == DecValue(s[start..DigitsEnd(s, start)])
  {
    ok, parsed := true, 0;
    var pos := start;
    ghost var e := DigitsEnd(s, start);
    assert s[start..start] == [];
    while pos < |s| && IsDigit(s[pos])
      invariant start <= pos <= e && DigitsEnd(s, pos) == e
      invariant AllDigits(s[start..pos]) && parsed == DecValue(s[start..pos]) < UINT64_LIMIT
    {
      var digit := s[pos] - 48;
      DecValueStep(s, start, pos);
      if parsed > (UINT64_LIMIT - 1 - digit) / 10 {
        DecValueGrows(s, start, pos + 1, e);
        ok := false;
        return;
      }
      parsed := parsed * 10 + digit;
      pos := pos + 1;
    }
  }

  method ParseLastStartXref(pdf: Bytes) returns (ok: bool, value: nat)
    ensures ok <==> LastStartXref(pdf).Some?
    ensures ok ==> LastStartXref(pdf).value == value
  {
    ok, value := false, 0;
    var marker := RFind(pdf, STARTXREF, |pdf|);
    if marker == -1 { return; }
    var pos := SkipSpaces(pdf, marker + 9);
    if pos >= |pdf| || !IsDigit(pdf[pos]) { return; }
    ok, value := ReadUint64(pdf, pos);
  }

  // ---- Reading back what a revision wrote ----------------------------------------------------------

  lemma StartXrefLetters()
    ensures |STARTXREF| == 9 && STARTXREF[0] == 0x73 && forall i :: 1 <= i < 9 ==> STARTXREF[i] != 0x73
    ensures |EOF| == 7 && EOF[0] == 0x0A && forall i :: 0 <= i < 7 ==> EOF[i] != 0x73
  {
  }

  /** No keyword begins at this offset or later. */
  predicate NoKeywordFrom(pdf: Bytes, q: int) { forall i :: q <= i < |pdf| ==> !At(pdf, i, STARTXREF) }

  lemma LastKeyword(pdf: Bytes, p: nat, q: nat)
    requires At(pdf, p, STARTXREF) && p < q <= |pdf| && NoKeywordFrom(pdf, q)
    requires forall i :: p < i < q ==> pdf[i] != 0x73
    ensures RFind(pdf, STARTXREF, |pdf|) == p
  {
    StartXrefLetters();
    var r := RFind(pdf, STARTXREF, |pdf|);
    assert r != -1 && r >= p && At(pdf, r, STARTXREF);
    AtIndex(pdf, r, STARTXREF, 0);
  }

  lemma NoLaterS(pdf: Bytes, p: nat, d: Bytes)
    requires At(pdf, p, STARTXREF) && At(pdf, p + 9, [0x0A]) && At(pdf, p + 10, d) && At(pdf, p + 10 + |d|, EOF)
    requires AllDigits(d)
    ensures p + 10 + |d| + 7 <= |pdf| && forall i :: p < i < p + 10 + |d| + 7 ==> pdf[i] != 0x73
  {
    hide At;
    StartXrefLetters();
    AtBounds(pdf, p + 10 + |d|, EOF);
    forall i | p < i < p + 10 + |d| + 7 ensures pdf[i] != 0x73 {
      if i < p + 9 { AtIndex(pdf, p, STARTXREF, i - p); }
      else if i == p + 9 { AtIndex(pdf, p + 9, [0x0A], 0); }
      else if i < p + 10 + |d| { AtIndex(pdf, p + 10, d, i - p - 10); }
      else { AtIndex(pdf, p + 10 + |d|, EOF, i - p - 10 - |d|); }
    }
  }

  /** The tail of a revision is read back as having that startxref, when no further keyword comes after it. */
  lemma LastTailReadsBack(pdf: Bytes, p: nat, startxref: nat)
    requires startxref < UINT64_LIMIT && At(pdf, p, STARTXREF + [0x0A] + Dec(startxref) + EOF)
    requires NoKeywordFrom(pdf, p + 10 + |Dec(startxref)| + 7)
    ensures LastStartXref(pdf) == Some(startxref)
  {
    hide At, Dec, RFind, NoKeywordFrom, LastStartXref;
    var d := Dec(startxref);
    StartXrefLetters();
    DecRoundTrip(startxref);
    AtSplit4(pdf, p, STARTXREF, [0x0A], d, EOF);
    AtIndex(pdf, p + 10 + |d|, EOF, 0);
    NoLaterS(pdf, p, d);
    LastKeyword(pdf, p, p + 10 + |d| + 7);
    NumberAfterKeyword(pdf, p, d);
  }

  lemma NumberAfterKeyword(pdf: Bytes, p: nat, d: Bytes)
    requires RFind(pdf, STARTXREF, |pdf|) == p && At(pdf, p + 9, [0x0A]) && At(pdf, p + 10, d)
    requires d != [] && AllDigits(d) && DecValue(d) < UINT64_LIMIT
    requires p + 10 + |d| < |pdf| && !IsDigit(pdf[p + 10 + |d|])
    ensures LastStartXref(pdf) == Some(DecValue(d))
  {
    hide At, RFind, DecValue, AllDigits, DigitsEnd, SpacesEnd, LastStartXref;
    AtIndex(pdf, p + 9, [0x0A], 0);
    AtIndex(pdf, p + 10, d, 0);
    FirstDigit(d);
    OneSpace(pdf, p + 9);
    DigitsEndAt(pdf, p + 10, d);
    LastStartXrefIs(pdf, p, p + 10, p + 10 + |d|);
  }

  lemma LastStartXrefIs(pdf: Bytes, marker: nat, pos: nat, e: nat)
    requires RFind(pdf, STARTXREF, |pdf|) == marker && marker + 9 <= pos < e <= |pdf| && AllDigits(pdf[pos..e])
    requires SpacesEnd(pdf, marker + 9) == pos && DigitsEnd(pdf, pos) == e && DecValue(pdf[pos..e]) < UINT64_LIMIT
    ensures LastStartXref(pdf) == Some(DecValue(pdf[pos..e]))
  {
    hide RFind, DecValue, AllDigits, DigitsEnd, SpacesEnd;
  }

  lemma FirstDigit(d: Bytes)
    requires d != [] && AllDigits(d)
    ensures IsDigit(d[0])
  {
  }

  lemma OneSpace(s: Bytes, pos: nat)
    requires pos + 1 < |s| && IsSpace(s[pos]) && !IsSpace(s[pos + 1])
    ensures SpacesEnd(s, pos) == pos + 1
  {
  }

  /** So is a file that ends in it. */
  lemma TailReadsBack(pdf: Bytes, p: nat, startxref: nat)
    requires startxref < UINT64_LIMIT
    requires At(pdf, p, STARTXREF + [0x0A] + Dec(startxref) + EOF) && p + 10 + |Dec(startxref)| + 7 == |pdf|
    ensures LastStartXref(pdf) == Some(startxref)
  {
    hide Dec, LastStartXref;
    StartXrefLetters();
    LastTailReadsBack(pdf, p, startxref);
  }
}
