/**
 PEM files (src/lib/core/KeyParsers.cpp:212-214, 532-608): the block loop, and the theorem that a file of blocks in the
 form of section 3 of RFC 7468, with bodies wrapped anywhere, loads as exactly those blocks.
 */
module Pem {
  import opened ByteStrings
  import opened Base64
  import opened Utf

  const DASH: Byte := 0x2D
  const LINE_FEED: Byte := 0x0A
  const DASHES: Bytes := [DASH, DASH, DASH, DASH, DASH]
  const BEGIN: Bytes := DASHES + [0x42, 0x45, 0x47, 0x49, 0x4E, 0x20]
  const END: Bytes := DASHES + [0x45, 0x4E, 0x44, 0x20]
  const DER: Bytes := [0x44, 0x45, 0x52]

  datatype Block = Block(kind: Bytes, der: Bytes)

  predicate IsBase64Char(c: Byte) {
    0x30 <= c <= 0x39 || 0x41 <= c <= 0x5A || 0x61 <= c <= 0x7A || c == 0x2B || c == 0x2F || c == 0x3D
  }

  /** The Base64 characters of a body; everything else is skipped. */
  function Keep(s: Bytes): (r: Bytes) {
    if s == [] then [] else if IsBase64Char(s[0]) then [s[0]] + Keep(s[1..]) else Keep(s[1..])
  }

  // ---- The loop ---------------------------------------------------------------------------------

  /** One turn of the loop: no further block, a broken one, or a block and the offset after it. */
  datatype Scan = Done | Broken | Found(block: Block, next: nat)

  /** The end marker of a block. */
  function Marker(kind: Bytes): (r: Bytes) { END + kind + DASHES }

  function BodyBlock(text: Bytes, kind: Bytes, start: nat, end: nat): (r: Scan)
    requires start < end && end + |Marker(kind)| <= |text|
    ensures r.Found? ==> end < r.next <= |text|
  {
    var payload := Keep(text[start + 1..end]);
    if payload == [] then Broken else
      match Decoded(payload) case None => Broken case Some(der) => Found(Block(kind, der), end + |Marker(kind)|)
  }

  function NextBlock(text: Bytes, pos: nat): (r: Scan)
    requires pos <= |text|
    ensures r.Found? ==> pos < r.next <= |text|
  {
    var begin := Find(text, BEGIN, pos);
    if begin == -1 then Done else
    var kindEnd := Find(text, DASHES, begin + |BEGIN|);
    if kindEnd == -1 then Broken else
    var kind := text[begin + |BEGIN|..kindEnd];
    var start := Find(text, [LINE_FEED], kindEnd);
    if start == -1 then Broken else
    var end := Find(text, Marker(kind), start);
    if end <= start then Broken else BodyBlock(text, kind, start, end)
  }

  function Blocks(text: Bytes, pos: nat): (r: Option<seq<Block>>)
    requires pos <= |text|
    decreases |text| - pos
  {
    match NextBlock(text, pos)
    case Done => Some([])
    case Broken => None
    case Found(block, next) => Prepend([block], Blocks(text, next))
  }

  predicate IsSequence(b: Block) { b.der != [] && b.der[0] == 0x30 }

  /** LoadAll, which adds to the blocks the caller has. */
  function Loaded(input: Bytes, before: seq<Block>, strict: bool): (r: Option<seq<Block>>) {
    if input == [] then None
    else if input[0] == 0x30 then Some(before + [Block(DER, input)])
    else match Blocks(input, 0)
      case None => None
      case Some(found) =>
        var all := before + found;
        if all == [] then None
        else if strict && exists i :: 0 <= i < |all| && !IsSequence(all[i]) then None
        else Some(all)
  }

  method KeepBase64(text: Bytes, start: nat, end: nat) returns (out: Bytes)
    requires start <= end <= |text|
    ensures out == Keep(text[start..end])
  {
    out := [];
    ghost var s := text[start..end];
    assert s[0..] == s;
    for i := start to end
      invariant out + Keep(s[i - start..]) == Keep(s)
    {
      assert s[i - start..][1..] == s[i + 1 - start..];
      if IsBase64Char(text[i]) { out := out + [text[i]]; }
    }
    assert s[end - start..] == [] && out + [] == out;
  }

  method ReadBody(text: Bytes, kind: Bytes, start: nat, end: nat) returns (r: Scan)
    requires start < end && end + |Marker(kind)| <= |text|
    ensures r == BodyBlock(text, kind, start, end)
  {
    hide Keep, Decoded;
    var payload := KeepBase64(text, start + 1, end);
    if payload == [] { return Broken; }
    var ok, der := Base64Decode(payload);
    r := if ok then Found(Block(kind, der), end + |Marker(kind)|) else Broken;
  }

  method ReadBlock(text: Bytes, pos: nat) returns (r: Scan)
    requires pos <= |text|
    ensures r == NextBlock(text, pos)
  {
    hide Find, BodyBlock, Marker;
    var begin := Find(text, BEGIN, pos);
    if begin == -1 { return Done; }
    var kindEnd := Find(text, DASHES, begin + |BEGIN|);
    if kindEnd == -1 { return Broken; }
    var kind := text[begin + |BEGIN|..kindEnd];
    var start := Find(text, [LINE_FEED], kindEnd);
    if start == -1 { return Broken; }
    var end := Find(text, Marker(kind), start);
    if end == -1 || end <= start { return Broken; }
    r := ReadBody(text, kind, start, end);
  }

  method LoadAll(input: Bytes, before: seq<Block>, strict: bool) returns (ok: bool, blocks: seq<Block>)
    ensures ok <==> Loaded(input, before, strict).Some?
    ensures ok ==> Loaded(input, before, strict) == Some(blocks)
  {
    hide NextBlock, IsSequence;
    ok, blocks := false, before;
    if input == [] { return; }
    if input[0] == 0x30 { return true, before + [Block(DER, input)]; }
    var pos := 0;
    ghost var found: seq<Block> := [];
    NothingYet(Blocks(input, 0));
    while true
      invariant pos <= |input| && blocks == before + found
      invariant Prepend(found, Blocks(input, pos)) == Blocks(input, 0)
      decreases |input| - pos
    {
      var scan := ReadBlock(input, pos);
      if scan.Broken? { return; }
      if scan.Done? { break; }
      PrependTwice(found, [scan.block], Blocks(input, scan.next));
      found := found + [scan.block];
      blocks := blocks + [scan.block];
      pos := scan.next;
    }
    assert found + [] == found;
    if blocks == [] { return; }
    if strict {
      for i := 0 to |blocks|
        invariant forall j :: 0 <= j < i ==> IsSequence(blocks[j])
      {
        if !IsSequence(blocks[i]) { return; }
      }
    }
    ok := true;
  }

  lemma NothingYet(rest: Option<seq<Block>>)
    ensures Prepend([], rest) == rest
  {
    if rest.Some? { assert [] + rest.value == rest.value; }
  }

  // ---- Files ------------------------------------------------------------------------------------

  /** A printed block: `trail` ends the first line, `body` is the wrapped Base64 text, `gap` follows the block. */
  datatype Entry = Entry(block: Block, trail: Bytes, body: Bytes, gap: Bytes)

  /** The pattern that follows the text is its first occurrence. */
  predicate First(s: Bytes, pat: Bytes) { forall i :: 0 <= i < |s| ==> !At(s + pat, i, pat) }

  /** No block begins inside the text. */
  predicate Unmarked(s: Bytes) { forall i :: 0 <= i < |s| ==> !At(s, i, BEGIN) }

  predicate EntryOk(e: Entry) {
    && First(e.block.kind, DASHES)
    && Free(e.trail, LINE_FEED)
    && First(e.body, Marker(e.block.kind)) && Keep(e.body) != [] && Decoded(Keep(e.body)) == Some(e.block.der)
    && Unmarked(e.gap)
  }

  function Opening(e: Entry): (r: Bytes) { BEGIN + e.block.kind + DASHES + e.trail }

  function EntryText(e: Entry): (r: Bytes) { Opening(e) + [LINE_FEED] + e.body + Marker(e.block.kind) }

  function Texts(entries: seq<Entry>): (r: Bytes) {
    if entries == [] then [] else EntryText(entries[0]) + entries[0].gap + Texts(entries[1..])
  }

  function BlocksOf(entries: seq<Entry>): (r: seq<Block>) {
    if entries == [] then [] else [entries[0].block] + BlocksOf(entries[1..])
  }

  predicate EntriesOk(entries: seq<Entry>) { forall i :: 0 <= i < |entries| ==> EntryOk(entries[i]) }

  // ---- Bodies -----------------------------------------------------------------------------------

  lemma EncodedIsBase64(s: Bytes)
    ensures forall i :: 0 <= i < |Encoded(s)| ==> IsBase64Char(Encoded(s)[i])
  {
    forall i | 0 <= i < |Encoded(s)| ensures IsBase64Char(Encoded(s)[i]) { EncodedChar(s, i); }
  }

  lemma {:induction false} EncodedChar(s: Bytes, i: nat)
    requires i < |Encoded(s)|
    ensures IsBase64Char(Encoded(s)[i])
    decreases |s|
  {
    hide Group;
    var end := Cut(|s|);
    if i < 4 {
      GroupChar(s[..end], i);
    } else {
      EncodedChar(s[end..], i - 4);
    }
  }

  lemma GroupChar(b: Bytes, i: nat)
    requires 1 <= |b| <= 3 && i < 4
    ensures IsBase64Char(Group(b)[i])
  {
    hide Sextet, GroupTriple;
  }

  /** Any wrapping of the Base64 text is a body: white space anywhere, and nothing else. */
  lemma {:induction false} WrappedBody(body: Bytes)
    requires forall i :: 0 <= i < |Strip(body)| ==> IsBase64Char(Strip(body)[i])
    ensures Keep(body) == Strip(body) && Free(body, DASH)
  {
    if body != [] {
      var rest := Strip(body[1..]);
      if IsSpace(body[0]) {
        assert Strip(body) == rest;
        WrappedBody(body[1..]);
      } else {
        assert Strip(body)[0] == body[0];
        forall i | 0 <= i < |rest| ensures IsBase64Char(rest[i]) { assert Strip(body)[i + 1] == rest[i]; }
        WrappedBody(body[1..]);
      }
    }
  }

  lemma FreeIsFirst(s: Bytes, pat: Bytes)
    requires pat != [] && Free(s, pat[0])
    ensures First(s, pat)
  {
    hide At;
    forall i | 0 <= i < |s| && At(s + pat, i, pat) ensures false { AtIndex(s + pat, i, pat, 0); }
  }

  /** Single dashes in a label are harmless. */
  lemma SpacedDashes(kind: Bytes)
    requires kind != [] ==> kind[|kind| - 1] != DASH
    requires forall i :: 0 <= i < |kind| - 1 ==> kind[i] != DASH || kind[i + 1] != DASH
    ensures First(kind, DASHES)
  {
    hide At;
    forall i | 0 <= i < |kind| && At(kind + DASHES, i, DASHES) ensures false {
      AtIndex(kind + DASHES, i, DASHES, 0);
      AtIndex(kind + DASHES, i, DASHES, 1);
    }
  }

  lemma WrappedEntryOk(e: Entry)
    requires First(e.block.kind, DASHES) && e.block.der != [] && Free(e.trail, LINE_FEED) && Unmarked(e.gap)
    requires Strip(e.body) == Encoded(e.block.der)
    ensures EntryOk(e)
  {
    hide Encoded, Strip, Keep, Free, IsBase64Char, First, Unmarked, Decoded;
    EncodedIsSomething(e.block.der);
    RoundTrip(e.block.der);
    EncodedIsBase64(e.block.der);
    WrappedBody(e.body);
    Dashed(e.block.kind);
    FreeIsFirst(e.body, Marker(e.block.kind));
  }

  // ---- Loading a file ---------------------------------------------------------------------------

  /** No block begins in a stretch of the text. */
  predicate NoneIn(text: Bytes, from: int, to: int) { forall i :: from <= i < to ==> !At(text, i, BEGIN) }

  lemma InnerAt(text: Bytes, off: nat, s: Bytes, i: nat, pat: Bytes)
    requires At(text, off, s) && At(text, i, pat) && off <= i && i + |pat| <= off + |s|
    ensures At(s, i - off, pat)
  {
    forall j | 0 <= j < |pat| ensures s[i - off + j] == pat[j] {
      AtIndex(text, i, pat, j);
      AtIndex(text, off, s, i - off + j);
    }
    assert s[i - off..i - off + |pat|] == pat;
  }

  /** A pattern that comes first is the one that is found. */
  lemma FirstFound(text: Bytes, from: nat, s: Bytes, pat: Bytes)
    requires At(text, from, s) && At(text, from + |s|, pat) && First(s, pat)
    ensures Find(text, pat, from) == from + |s|
  {
    hide Find, At;
    AtJoin(text, from, s, pat);
    var r := Find(text, pat, from);
    if from <= r < from + |s| { InnerAt(text, from, s + pat, r, pat); }
  }

  /** The marker does not overlap itself, so none can begin in a gap and end after it. */
  lemma NoStraddle(text: Bytes, i: nat, q: nat)
    requires At(text, i, BEGIN) && At(text, q, BEGIN) && i < q
    ensures i + |BEGIN| <= q
  {
    hide At;
    var d := q - i;
    if d <= 5 {
      AtIndex(text, i, BEGIN, 5);
      AtIndex(text, q, BEGIN, 5 - d);
    } else if d < |BEGIN| {
      AtIndex(text, i, BEGIN, d);
      AtIndex(text, q, BEGIN, 0);
    }
  }

  lemma GapHasNone(text: Bytes, off: nat, gap: Bytes)
    requires At(text, off, gap) && Unmarked(gap) && (off + |gap| == |text| || At(text, off + |gap|, BEGIN))
    ensures NoneIn(text, off, off + |gap|)
  {
    hide At;
    forall i | off <= i < off + |gap| ensures !At(text, i, BEGIN) {
      if At(text, i, BEGIN) {
        AtBounds(text, i, BEGIN);
        if off + |gap| < |text| { NoStraddle(text, i, off + |gap|); }
        InnerAt(text, off, gap, i, BEGIN);
      }
    }
  }

  lemma Dashed(kind: Bytes)
    ensures BEGIN[0] == DASH && DASHES[0] == DASH && Marker(kind) != [] && Marker(kind)[0] == DASH && |BEGIN| == 11
  {
  }

  /** The parts of a printed block, by offset. */
  lemma EntryParts(text: Bytes, off: nat, e: Entry)
    requires At(text, off, EntryText(e))
    ensures var k, d := off + |BEGIN|, off + |BEGIN| + |e.block.kind|;
      var l := d + |DASHES| + |e.trail|;
      var m := l + 1 + |e.body|;
      && At(text, off, BEGIN) && At(text, k, e.block.kind) && At(text, d, DASHES) && At(text, d + |DASHES|, e.trail)
      && At(text, l, [LINE_FEED]) && At(text, l + 1, e.body) && At(text, m, Marker(e.block.kind))
      && |EntryText(e)| == m - off + |Marker(e.block.kind)| && off + |EntryText(e)| <= |text|
  {
    hide At, Marker;
    AtBounds(text, off, EntryText(e));
    AtSplit4(text, off, Opening(e), [LINE_FEED], e.body, Marker(e.block.kind));
    AtSplit4(text, off, BEGIN, e.block.kind, DASHES, e.trail);
  }

  lemma BodyReads(text: Bytes, e: Entry, l: nat, m: nat)
    requires EntryOk(e) && At(text, l + 1, e.body) && m == l + 1 + |e.body| && m + |Marker(e.block.kind)| <= |text|
    ensures BodyBlock(text, e.block.kind, l, m) == Found(e.block, m + |Marker(e.block.kind)|)
  {
    hide Keep, Free, Decoded, First, Unmarked;
    assert text[l + 1..m] == e.body;
  }

  lemma EncodedIsSomething(s: Bytes)
    requires s != []
    ensures Encoded(s) != []
  {
  }

  lemma BeginFound(text: Bytes, pos: nat, off: nat)
    requires At(text, off, BEGIN) && pos <= off && NoneIn(text, pos, off)
    ensures Find(text, BEGIN, pos) == off
  {
    hide Find, At;
  }

  lemma LineFeedIsFirst(trail: Bytes)
    requires Free(trail, LINE_FEED)
    ensures First(DASHES + trail, [LINE_FEED])
  {
    hide First;
    FreeIsFirst(DASHES + trail, [LINE_FEED]);
  }

  lemma MarkerIsFirst(body: Bytes, marker: Bytes)
    requires First(body, marker) && marker != [] && marker[0] == DASH
    ensures First([LINE_FEED] + body, marker)
  {
    hide At;
    var s := [LINE_FEED] + body;
    forall i | 0 <= i < |s| && At(s + marker, i, marker) ensures false {
      AtIndex(s + marker, i, marker, 0);
      assert (s + marker)[1..] == body + marker;
      assert At(s + marker, 1, body + marker) by { TailAt(s + marker, 1); }
      InnerAt(s + marker, 1, body + marker, i, marker);
    }
  }

  lemma TailAt(s: Bytes, i: nat)
    requires i <= |s|
    ensures At(s, i, s[i..])
  {
  }

  lemma EntryReads(text: Bytes, pos: nat, off: nat, e: Entry)
    requires EntryOk(e) && At(text, off, EntryText(e)) && pos <= off <= |text| && NoneIn(text, pos, off)
    ensures off + |EntryText(e)| <= |text|
    ensures NextBlock(text, pos) == Found(e.block, off + |EntryText(e)|)
  {
    hide At, Find, Marker, BodyBlock, EntryText, NoneIn, Keep, Decoded, First, Unmarked, Free;
    EntryParts(text, off, e);
    Dashed(e.block.kind);
    var kind := e.block.kind;
    var k := off + |BEGIN|;
    var d := k + |kind|;
    var l := d + |DASHES| + |e.trail|;
    var m := l + 1 + |e.body|;
    BeginFound(text, pos, off);
    FirstFound(text, k, kind, DASHES);
    AtSlice(text, k, kind);
    AtJoin(text, d, DASHES, e.trail);
    LineFeedIsFirst(e.trail);
    FirstFound(text, d, DASHES + e.trail, [LINE_FEED]);
    AtJoin(text, l, [LINE_FEED], e.body);
    MarkerIsFirst(e.body, Marker(kind));
    FirstFound(text, l, [LINE_FEED] + e.body, Marker(kind));
    AtBounds(text, m, Marker(kind));
    BodyReads(text, e, l, m);
  }

  lemma {:induction false} TextsRead(text: Bytes, pos: nat, off: nat, entries: seq<Entry>)
    requires EntriesOk(entries) && pos <= off && At(text, off, Texts(entries)) && off + |Texts(entries)| == |text|
    requires NoneIn(text, pos, off)
    ensures Blocks(text, pos) == Some(BlocksOf(entries))
    decreases |entries|
  {
    hide At, NextBlock, EntryText, EntryOk, NoneIn, Find, Unmarked;
    if entries == [] {
      NothingLeft(text, pos);
    } else {
      var e, rest := entries[0], entries[1..];
      AtSplit3(text, off, EntryText(e), e.gap, Texts(rest));
      EntryReads(text, pos, off, e);
      var next := off + |EntryText(e)|;
      GapIsUnmarked(e);
      RestBegins(text, next + |e.gap|, rest);
      GapHasNone(text, next, e.gap);
      TextsRead(text, next, next + |e.gap|, rest);
    }
  }

  lemma GapIsUnmarked(e: Entry)
    requires EntryOk(e)
    ensures Unmarked(e.gap)
  {
    hide Unmarked, First, Keep, Decoded;
  }

  /** After a gap comes a block or the end. */
  lemma RestBegins(text: Bytes, off: nat, rest: seq<Entry>)
    requires At(text, off, Texts(rest)) && off + |Texts(rest)| == |text|
    ensures off == |text| || At(text, off, BEGIN)
  {
    hide At, Marker;
    if rest != [] {
      AtSplit3(text, off, EntryText(rest[0]), rest[0].gap, Texts(rest[1..]));
      EntryParts(text, off, rest[0]);
    }
  }

  lemma NothingLeft(text: Bytes, pos: nat)
    requires pos <= |text| && NoneIn(text, pos, |text|)
    ensures NextBlock(text, pos) == Done
  {
    hide Find;
    var q := Find(text, BEGIN, pos);
    if q != -1 { AtBounds(text, q, BEGIN); }
  }

  /** A file: text in which no block begins, and the printed blocks. It must not start like DER. */
  lemma FileLoads(prefix: Bytes, entries: seq<Entry>, before: seq<Block>, strict: bool)
    requires EntriesOk(entries) && entries != [] && Unmarked(prefix) && (prefix != [] ==> prefix[0] != 0x30)
    ensures Loaded(prefix + Texts(entries), before, strict) ==
      if strict && exists i :: 0 <= i < |before + BlocksOf(entries)| && !IsSequence((before + BlocksOf(entries))[i])
      then None else Some(before + BlocksOf(entries))
  {
    hide EntriesOk, Blocks, Texts, IsSequence, Unmarked, NoneIn;
    var text := prefix + Texts(entries);
    assert text[|prefix|..] == Texts(entries);
    assert At(text, |prefix|, Texts(entries)) by { assert text[|prefix|..|text|] == Texts(entries); }
    RestBegins(text, |prefix|, entries);
    assert At(text, 0, prefix);
    GapHasNone(text, 0, prefix);
    TextsRead(text, 0, |prefix|, entries);
    TextStarts(entries);
    assert text[0] == if prefix != [] then prefix[0] else DASH;
  }

  lemma TextStarts(entries: seq<Entry>)
    requires entries != []
    ensures Texts(entries) != [] && Texts(entries)[0] == DASH && BlocksOf(entries) != []
  {
    hide Marker;
    var e := entries[0];
    assert EntryText(e)[0] == Opening(e)[0] == BEGIN[0];
  }
}
