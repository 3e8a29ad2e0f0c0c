/**
 The cross-reference section of an incremental revision (src/lib/pades/PadesBuilder.cpp:166-194), and a
 reader for the section as section 7.5.4 of ISO 32000-1 lays it out.
 */
module PdfXref {
  import opened ByteStrings
  import opened Decimal

  /** An entry of the offset map. The std::map itself is its in-order listing: strictly ascending ids. */
  datatype XrefEntry = XrefEntry(id: nat, offset: nat, gen: nat)

  predicate Ascending(es: seq<XrefEntry>) {
    forall i, j :: 0 <= i < j < |es| ==> es[i].id < es[j].id
  }

  const NEWLINE: Bytes := [0x0A]
  /** " n " and the newline that close an entry line. */
  const IN_USE: Bytes := [0x20, 0x6E, 0x20, 0x0A]
  /** "xref" and a newline. */
  const XREF: Bytes := [0x78, 0x72, 0x65, 0x66, 0x0A]

  /** "%010zu %05d n \n" */
  function Line(e: XrefEntry): (r: Bytes)
    ensures |r| >= 20
  {
    Padded(e.offset, 10) + SPACE + Padded(e.gen, 5) + IN_USE
  }

  /** An entry line: ten and five digits at least, a space between them, the keyword and the two-octet line end. */
  lemma LineReads(e: XrefEntry)
    ensures var n := |Line(e)| - 4; At(Line(e), n, Ascii(" n \n")) && exists k :: 10 <= k <= n - 6 && LineSplits(e, k)
  {
    hide Padded;
    assert Ascii(" n \n") == IN_USE;
    var k := |Padded(e.offset, 10)|;
    PaddedRoundTrip(e.offset, 10);
    PaddedRoundTrip(e.gen, 5);
    assert Line(e)[..k] == Padded(e.offset, 10) && Line(e)[k + 1..|Line(e)| - 4] == Padded(e.gen, 5);
    assert LineSplits(e, k);
  }

  predicate LineSplits(e: XrefEntry, k: nat) {
    var line := Line(e);
    && k + 1 <= |line| - 4 && line[k] == 0x20 && AllDigits(line[..k]) && AllDigits(line[k + 1..|line| - 4])
    && DecValue(line[..k]) == e.offset && DecValue(line[k + 1..|line| - 4]) == e.gen
  }

  /** ISO 32000-1 wants every entry to be exactly 20 bytes long; printf's widths only guarantee it below
      10^10 bytes of offset and 10^5 generations. */
  lemma LineIsTwentyBytes(e: XrefEntry)
    ensures |Line(e)| == 20 <==> e.offset < Pow10(10) && e.gen < Pow10(5)
  {
    DecLength(e.offset, 10);
    DecLength(e.gen, 5);
  }

  function Lines(es: seq<XrefEntry>): (r: Bytes) {
    if |es| == 0 then [] else Line(es[0]) + Lines(es[1..])
  }

  predicate Consecutive(es: seq<XrefEntry>) {
    forall k :: 0 <= k < |es| ==> es[k].id == es[0].id + k
  }

  /** One past the last index of the run of consecutive ids that has reached `end` so far. */
  function RunEnd(es: seq<XrefEntry>, end: nat): (e: nat)
    requires 0 < end <= |es|
    ensures end <= e <= |es|
    ensures forall k :: end <= k < e ==> es[k].id == es[end - 1].id + (k - (end - 1))
    ensures e < |es| ==> es[e].id != es[e - 1].id + 1
    decreases |es| - end
  {
    if end < |es| && es[end].id == es[end - 1].id + 1 then RunEnd(es, end + 1) else end
  }

  /** The listing cut into its maximal runs of consecutive ids, from index i on. */
  function Runs(es: seq<XrefEntry>, i: nat): (r: seq<seq<XrefEntry>>)
    requires i <= |es|
    decreases |es| - i
  {
    if i == |es| then [] else [es[i..RunEnd(es, i + 1)]] + Runs(es, RunEnd(es, i + 1))
  }

  function SubsectionHead(run: seq<XrefEntry>): (r: Bytes)
    requires run != []
    ensures |r| >= 4
  {
    Dec(run[0].id) + SPACE + Dec(|run|) + NEWLINE
  }

  function Subsection(run: seq<XrefEntry>): (r: Bytes)
    requires run != []
  {
    SubsectionHead(run) + Lines(run)
  }

  function Subsections(es: seq<XrefEntry>, i: nat): (r: Bytes)
    requires i <= |es|
    decreases |es| - i
  {
    if i == |es| then [] else Subsection(es[i..RunEnd(es, i + 1)]) + Subsections(es, RunEnd(es, i + 1))
  }

  function XrefText(es: seq<XrefEntry>): (r: Bytes) { XREF + Subsections(es, 0) }

  // ---- The printing loops ----------------------------------------------------------------------

  method AppendLines(revision: Bytes, run: seq<XrefEntry>) returns (out: Bytes)
    ensures out == revision + Lines(run)
  {
    hide Line;
    out := revision;
    var k := 0;
    while k < |run|
      invariant 0 <= k <= |run|
      invariant out + Lines(run[k..]) == revision + Lines(run)
    {
      assert run[k..][1..] == run[k + 1..];
      assert out + (Line(run[k]) + Lines(run[k + 1..])) == out + Line(run[k]) + Lines(run[k + 1..]);
      out := out + Line(run[k]);
      k := k + 1;
    }
  }

  /** Grows the run that starts at `it` while ids are consecutive. */
  method GrowRun(es: seq<XrefEntry>, it: nat) returns (end: nat)
    requires it < |es|
    ensures it < end <= |es| && end == RunEnd(es, it + 1)
  {
    var last := es[it].id;
    end := it + 1;
    while end < |es| && es[end].id == last + 1
      invariant it < end <= |es| && last == es[end - 1].id
      invariant RunEnd(es, end) == RunEnd(es, it + 1)
    {
      last := es[end].id;
      end := end + 1;
    }
  }

  /** AppendXrefSubsections: print the run that starts here, go on after it. */
  method AppendXrefSubsections(revision: Bytes, es: seq<XrefEntry>) returns (out: Bytes)
    ensures out == revision + XrefText(es)
  {
    hide Dec, Lines;
    out := revision + XREF;
    var it := 0;
    while it < |es|
      invariant 0 <= it <= |es|
      invariant out + Subsections(es, it) == revision + XrefText(es)
    {
      var end := GrowRun(es, it);
      var run := es[it..end];
      var head := out + (Dec(es[it].id) + SPACE + Dec(end - it) + NEWLINE);
      AppendedSubsection(out, run, Subsections(es, end));
      out := AppendLines(head, run);
      it := end;
    }
  }

  lemma AppendedSubsection(before: Bytes, run: seq<XrefEntry>, after: Bytes)
    requires run != []
    ensures before + (Dec(run[0].id) + SPACE + Dec(|run|) + NEWLINE) + Lines(run) + after
              == before + (Subsection(run) + after)
  {
    hide Dec, Lines;
    Regroup(before, SubsectionHead(run), Lines(run));
    Regroup(before, Subsection(run), after);
  }

  // ---- Reading the section back -------------------------------------------------------------------

  datatype Read<T> = Read(value: T, next: nat)

  /** One entry line; its object number comes from its place in the subsection. */
  function ReadLine(s: Bytes, pos: nat, id: nat): (r: Option<Read<XrefEntry>>)
    requires pos <= |s|
    ensures r.Some? ==> pos < r.value.next <= |s|
  {
    match ReadNumber(s, pos)
    case None => None
    case Some(off) =>
      if !At(s, off.next, SPACE) then None else
      match ReadNumber(s, off.next + 1)
      case None => None
      case Some(gen) =>
        if !At(s, gen.next, IN_USE) then None
        else Some(Read(XrefEntry(id, off.value, gen.value), gen.next + 4))
  }

  function ReadLines(s: Bytes, pos: nat, id: nat, count: nat): (r: Option<Read<seq<XrefEntry>>>)
    requires pos <= |s|
    ensures r.Some? ==> pos <= r.value.next <= |s|
    decreases count
  {
    if count == 0 then Some(Read([], pos)) else
      match ReadLine(s, pos, id)
      case None => None
      case Some(line) =>
        match ReadLines(s, line.next, id + 1, count - 1)
        case None => None
        case Some(rest) => Some(Read([line.value] + rest.value, rest.next))
  }

  function ReadSubsection(s: Bytes, pos: nat): (r: Option<Read<seq<XrefEntry>>>)
    requires pos <= |s|
    ensures r.Some? ==> pos < r.value.next <= |s|
  {
    match ReadNumber(s, pos)
    case None => None
    case Some(first) =>
      if !At(s, first.next, SPACE) then None else
      match ReadNumber(s, first.next + 1)
      case None => None
      case Some(count) =>
        if !At(s, count.next, NEWLINE) then None
        else ReadLines(s, count.next + 1, first.value, count.value)
  }

  /** Subsections for as long as one starts with a digit. */
  function ReadSubsections(s: Bytes, pos: nat): (r: Option<Read<seq<seq<XrefEntry>>>>)
    requires pos <= |s|
    decreases |s| - pos
  {
    if pos == |s| || !IsDigit(s[pos]) then Some(Read([], pos)) else
      match ReadSubsection(s, pos)
      case None => None
      case Some(one) =>
        match ReadSubsections(s, one.next)
        case None => None
        case Some(rest) => Some(Read([one.value] + rest.value, rest.next))
  }

  function ReadXref(s: Bytes, pos: nat): (r: Option<Read<seq<seq<XrefEntry>>>>) {
    if At(s, pos, XREF) then ReadSubsections(s, pos + 5) else None
  }

  /** Two numerals with a space between them, and what follows them. */
  lemma ReadPair(s: Bytes, pos: nat, a: Bytes, b: Bytes, tail: Bytes)
    requires At(s, pos, a) && At(s, pos + |a|, SPACE) && At(s, pos + |a| + 1, b) && At(s, pos + |a| + 1 + |b|, tail)
    requires a != [] && b != [] && tail != [] && AllDigits(a) && AllDigits(b) && !IsDigit(tail[0])
    ensures pos < |s| && IsDigit(s[pos])
    ensures ReadNumber(s, pos) == Some(Number(DecValue(a), pos + |a|))
    ensures ReadNumber(s, pos + |a| + 1) == Some(Number(DecValue(b), pos + |a| + 1 + |b|))
  {
    hide ReadNumber, DecValue, At;
    AtIndex(s, pos, a, 0);
    AtIndex(s, pos + |a|, SPACE, 0);
    AtIndex(s, pos + |a| + 1 + |b|, tail, 0);
    ReadNumberAt(s, pos, a);
    ReadNumberAt(s, pos + |a| + 1, b);
  }

  lemma ReadLineAt(s: Bytes, pos: nat, e: XrefEntry)
    requires At(s, pos, Line(e))
    ensures ReadLine(s, pos, e.id) == Some(Read(e, pos + |Line(e)|))
  {
    hide ReadNumber, Padded, DecValue, At;
    PaddedRoundTrip(e.offset, 10);
    PaddedRoundTrip(e.gen, 5);
    AtSplit4(s, pos, Padded(e.offset, 10), SPACE, Padded(e.gen, 5), IN_USE);
    ReadPair(s, pos, Padded(e.offset, 10), Padded(e.gen, 5), IN_USE);
  }

  lemma {:induction false} ReadLinesAt(s: Bytes, pos: nat, run: seq<XrefEntry>, id: nat)
    requires At(s, pos, Lines(run)) && forall k :: 0 <= k < |run| ==> run[k].id == id + k
    ensures ReadLines(s, pos, id, |run|) == Some(Read(run, pos + |Lines(run)|))
    decreases |run|
  {
    hide Line, ReadLine;
    if |run| > 0 {
      AtSplit(s, pos, Line(run[0]), Lines(run[1..]));
      ReadLineAt(s, pos, run[0]);
      ReadLinesAt(s, pos + |Line(run[0])|, run[1..], id + 1);
      assert [run[0]] + run[1..] == run;
    }
  }

  lemma ReadHeadAt(s: Bytes, pos: nat, run: seq<XrefEntry>)
    requires run != [] && At(s, pos, SubsectionHead(run))
    ensures pos < |s| && IsDigit(s[pos])
    ensures ReadSubsection(s, pos) == ReadLines(s, pos + |SubsectionHead(run)|, run[0].id, |run|)
  {
    hide ReadNumber, Dec, ReadLines, DecValue, At;
    DecRoundTrip(run[0].id);
    DecRoundTrip(|run|);
    AtSplit4(s, pos, Dec(run[0].id), SPACE, Dec(|run|), NEWLINE);
    ReadPair(s, pos, Dec(run[0].id), Dec(|run|), NEWLINE);
  }

  lemma ReadSubsectionAt(s: Bytes, pos: nat, run: seq<XrefEntry>)
    requires run != [] && Consecutive(run) && At(s, pos, Subsection(run))
    ensures pos < |s| && IsDigit(s[pos])
    ensures ReadSubsection(s, pos) == Some(Read(run, pos + |Subsection(run)|))
  {
    hide Lines, ReadLines, SubsectionHead, ReadSubsection;
    AtSplit(s, pos, SubsectionHead(run), Lines(run));
    ReadHeadAt(s, pos, run);
    ReadLinesAt(s, pos + |SubsectionHead(run)|, run, run[0].id);
  }

  lemma RunIsConsecutive(es: seq<XrefEntry>, i: nat)
    requires i < |es|
    ensures Consecutive(es[i..RunEnd(es, i + 1)])
  {
  }

  /** Printed subsections read back as the maximal runs of the offset map. */
  lemma {:induction false} ReadSubsectionsAt(s: Bytes, pos: nat, es: seq<XrefEntry>, i: nat)
    requires i <= |es| && At(s, pos, Subsections(es, i))
    requires pos + |Subsections(es, i)| < |s| && !IsDigit(s[pos + |Subsections(es, i)|])
    ensures ReadSubsections(s, pos) == Some(Read(Runs(es, i), pos + |Subsections(es, i)|))
    decreases |es| - i
  {
    hide At, Consecutive, Subsection, ReadSubsection;
    AtBounds(s, pos, Subsections(es, i));
    if i < |es| {
      var e := RunEnd(es, i + 1);
      var run := es[i..e];
      AtSplit(s, pos, Subsection(run), Subsections(es, e));
      RunIsConsecutive(es, i);
      ReadSubsectionAt(s, pos, run);
      ReadSubsectionsAt(s, pos + |Subsection(run)|, es, e);
    }
  }

  lemma ReadXrefAt(s: Bytes, pos: nat, es: seq<XrefEntry>)
    requires At(s, pos, XrefText(es))
    requires pos + |XrefText(es)| < |s| && !IsDigit(s[pos + |XrefText(es)|])
    ensures ReadXref(s, pos) == Some(Read(Runs(es, 0), pos + |XrefText(es)|))
  {
    hide Runs, Subsections, ReadSubsections;
    AtSplit(s, pos, XREF, Subsections(es, 0));
    ReadSubsectionsAt(s, pos + 5, es, 0);
  }

  function Flatten(runs: seq<seq<XrefEntry>>): (r: seq<XrefEntry>) {
    if |runs| == 0 then [] else runs[0] + Flatten(runs[1..])
  }

  lemma FlattenCons(run: seq<XrefEntry>, runs: seq<seq<XrefEntry>>)
    ensures Flatten([run] + runs) == run + Flatten(runs)
  {
    assert ([run] + runs)[1..] == runs;
  }

  lemma {:induction false} RunsExpand(es: seq<XrefEntry>, i: nat)
    requires i <= |es|
    ensures Flatten(Runs(es, i)) == es[i..]
    ensures i < |es| ==> Runs(es, i) != [] && Runs(es, i)[0] != [] && Runs(es, i)[0][0] == es[i]
    decreases |es| - i
  {
    if i < |es| {
      var e := RunEnd(es, i + 1);
      RunsExpand(es, e);
      assert Runs(es, i) == [es[i..e]] + Runs(es, e);
      hide RunEnd, Runs;
      FlattenCons(es[i..e], Runs(es, e));
      assert es[i..e] + es[e..] == es[i..];
    }
  }

  predicate GapAfter(runs: seq<seq<XrefEntry>>, k: nat)
    requires k + 1 < |runs|
  {
    runs[k] != [] && runs[k + 1] != [] && runs[k + 1][0].id > runs[k][0].id + |runs[k]|
  }

  lemma {:induction false} RunsHaveGaps(es: seq<XrefEntry>, i: nat, k: nat)
    requires i <= |es| && Ascending(es) && k < |Runs(es, i)|
    ensures Runs(es, i)[k] != [] && Consecutive(Runs(es, i)[k])
    ensures k + 1 < |Runs(es, i)| ==> GapAfter(Runs(es, i), k)
    decreases |es| - i
  {
    var e := RunEnd(es, i + 1);
    RunsExpand(es, e);
    RunIsConsecutive(es, i);
    assert Runs(es, i)[0] == es[i..e];
    assert e < |es| ==> es[e - 1].id < es[e].id;
    if k > 0 { RunsHaveGaps(es, e, k - 1); }
  }

  /** The runs expand back to the map, each has consecutive ids, and they are maximal: no run continues
      the one before it. */
  lemma RunsAreMaximal(es: seq<XrefEntry>)
    requires Ascending(es)
    ensures Flatten(Runs(es, 0)) == es
    ensures forall k :: 0 <= k < |Runs(es, 0)| ==> Runs(es, 0)[k] != [] && Consecutive(Runs(es, 0)[k])
    ensures forall k :: 0 <= k < |Runs(es, 0)| - 1 ==> GapAfter(Runs(es, 0), k)
  {
    hide Flatten, Runs, GapAfter, Consecutive, Ascending;
    RunsExpand(es, 0);
    forall k | 0 <= k < |Runs(es, 0)|
      ensures Runs(es, 0)[k] != [] && Consecutive(Runs(es, 0)[k])
      ensures k + 1 < |Runs(es, 0)| ==> GapAfter(Runs(es, 0), k)
    {
      RunsHaveGaps(es, 0, k);
    }
  }
}
