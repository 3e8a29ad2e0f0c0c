/**
 Whatever the PEM loader accepts (src/lib/core/KeyParsers.cpp:532-608) is a file of blocks as they are written: the two
 directions together say exactly which inputs load, and as what.
 */
module PemInverse {
  import opened ByteStrings
  import opened Base64
  import opened Pem

  /** The text is something in which no block begins, and then written blocks. */
  predicate WrittenAs(text: Bytes, prefix: Bytes, entries: seq<Entry>) {
    text == prefix + Texts(entries) && Unmarked(prefix) && EntriesOk(entries)
  }

  // ---- One block --------------------------------------------------------------------------------

  lemma BeforeIsUnmarked(text: Bytes, pos: nat, to: nat)
    requires pos <= to <= |text| && NoneIn(text, pos, to)
    ensures Unmarked(text[pos..to])
  {
    hide At;
    var s := text[pos..to];
    forall i | 0 <= i < |s| ensures !At(s, i, BEGIN) {
      if At(s, i, BEGIN) { OuterAt(text, pos, s, i, BEGIN); }
    }
  }

  lemma OuterAt(text: Bytes, off: nat, s: Bytes, i: nat, pat: Bytes)
    requires off + |s| <= |text| && s == text[off..off + |s|] && At(s, i, pat)
    ensures At(text, off + i, pat)
  {
    AtTrans(text, off, s, i, pat);
  }

  /** What is found first is the first after the text before it. */
  lemma FoundIsFirst(text: Bytes, from: nat, pat: Bytes)
    requires from <= |text| && Find(text, pat, from) != -1
    ensures var q := Find(text, pat, from); from <= q <= |text| && First(text[from..q], pat) && At(text, q, pat)
  {
    hide Find, At;
    var q := Find(text, pat, from);
    AtBounds(text, q, pat);
    var s := text[from..q];
    SliceIs(text, from, q);
    AtJoin(text, from, s, pat);
    AtSlice(text, from, s + pat);
    forall i | 0 <= i < |s| ensures !At(s + pat, i, pat) {
      if At(s + pat, i, pat) { OuterAt(text, from, s + pat, i, pat); }
    }
  }

  lemma SliceIs(text: Bytes, a: nat, b: nat)
    requires a <= b <= |text|
    ensures At(text, a, text[a..b])
  {
  }

  /** A line feed that is found after five dashes comes after all of them, with none in between. */
  lemma LineFeedAfter(text: Bytes, d: nat)
    requires At(text, d, DASHES) && Find(text, [LINE_FEED], d) != -1
    ensures var l := Find(text, [LINE_FEED], d); d + 5 <= l < |text| && Free(text[d + 5..l], LINE_FEED)
  {
    hide Find, At;
    var l := Find(text, [LINE_FEED], d);
    AtBounds(text, l, [LINE_FEED]);
    AtIndex(text, l, [LINE_FEED], 0);
    if l < d + 5 { AtIndex(text, d, DASHES, l - d); }
    forall i | d + 5 <= i < l ensures text[i] != LINE_FEED {
      AtOne(text, i);
    }
  }

  lemma FirstOfTail(body: Bytes, marker: Bytes, s: Bytes)
    requires First(s, marker) && s == [LINE_FEED] + body
    ensures First(body, marker)
  {
    hide At;
    forall i | 0 <= i < |body| ensures !At(body + marker, i, marker) {
      if At(body + marker, i, marker) {
        assert (s + marker)[1..1 + |body + marker|] == body + marker;
        OuterAt(s + marker, 1, body + marker, i, marker);
      }
    }
  }

  lemma PartsMake(text: Bytes, b: nat, e: Entry)
    requires var d := b + 11 + |e.block.kind|; var l := d + 5 + |e.trail|; var m := l + 1 + |e.body|;
      && At(text, b, BEGIN) && At(text, b + 11, e.block.kind) && At(text, d, DASHES) && At(text, d + 5, e.trail)
      && At(text, l, [LINE_FEED]) && At(text, l + 1, e.body) && At(text, m, Marker(e.block.kind))
    ensures At(text, b, EntryText(e))
  {
    hide At, Marker;
    var kind := e.block.kind;
    Dashed(kind);
    AtJoin(text, b, BEGIN, kind);
    AtJoin(text, b, BEGIN + kind, DASHES);
    AtJoin(text, b, BEGIN + kind + DASHES, e.trail);
    AtJoin(text, b, Opening(e), [LINE_FEED]);
    AtJoin(text, b, Opening(e) + [LINE_FEED], e.body);
    AtJoin(text, b, Opening(e) + [LINE_FEED] + e.body, Marker(kind));
  }

  /** The block that one turn finds, and where it begins; the gap is left empty. */
  lemma BlockHere(text: Bytes, pos: nat) returns (b: nat, e: Entry)
    requires pos <= |text| && NextBlock(text, pos).Found?
    ensures pos <= b <= |text| && NoneIn(text, pos, b) && At(text, b, EntryText(e)) && EntryOk(e) && e.gap == []
    ensures NextBlock(text, pos) == Found(e.block, b + |EntryText(e)|)
  {
    hide At, Find, Marker, Keep, Decoded, First, Free, EntryText, NoneIn;
    b := Find(text, BEGIN, pos);
    NoneBefore(text, pos);
    var k := b + |BEGIN|;
    Dashed([]);
    AtBounds(text, b, BEGIN);
    var d := Find(text, DASHES, k);
    FoundIsFirst(text, k, DASHES);
    var kind := text[k..d];
    Dashed(kind);
    var l := Find(text, [LINE_FEED], d);
    LineFeedAfter(text, d);
    var m := Find(text, Marker(kind), l);
    FoundIsFirst(text, l, Marker(kind));
    AtBounds(text, m, Marker(kind));
    var body := text[l + 1..m];
    assert text[l..m] == [text[l]] + body;
    AtIndex(text, l, [LINE_FEED], 0);
    FirstOfTail(body, Marker(kind), text[l..m]);
    e := Entry(NextBlock(text, pos).block, text[d + 5..l], body, []);
    SliceIs(text, k, d);
    SliceIs(text, d + 5, l);
    SliceIs(text, l + 1, m);
    PartsMake(text, b, e);
    EntryLength(e);
  }

  lemma EntryLength(e: Entry)
    ensures |EntryText(e)| == 11 + |e.block.kind| + 5 + |e.trail| + 1 + |e.body| + |Marker(e.block.kind)|
  {
    hide Marker;
  }

  lemma NoneBefore(text: Bytes, pos: nat)
    requires pos <= |text| && Find(text, BEGIN, pos) != -1
    ensures NoneIn(text, pos, Find(text, BEGIN, pos))
  {
    hide Find, At;
  }

  // ---- The file ---------------------------------------------------------------------------------

  lemma {:induction false} TextHere(text: Bytes, pos: nat) returns (prefix: Bytes, entries: seq<Entry>)
    requires pos <= |text| && Blocks(text, pos).Some?
    ensures WrittenAs(text[pos..], prefix, entries) && Blocks(text, pos) == Some(BlocksOf(entries))
    decreases |text| - pos
  {
    hide At, NextBlock, EntryText, EntryOk, NoneIn, Unmarked, Find;
    if NextBlock(text, pos).Done? {
      prefix, entries := text[pos..], [];
      NoneToTheEnd(text, pos);
      BeforeIsUnmarked(text, pos, |text|);
      assert text[pos..|text|] == text[pos..];
    } else {
      var b, e := BlockHere(text, pos);
      var next := NextBlock(text, pos).next;
      var gap, rest := TextHere(text, next);
      prefix := text[pos..b];
      BeforeIsUnmarked(text, pos, b);
      var first := e.(gap := gap);
      WithGap(e, gap);
      entries := [first] + rest;
      assert entries[1..] == rest;
      AtSlice(text, b, EntryText(e));
      assert text[pos..] == prefix + (text[b..next] + text[next..]);
      Regroup(EntryText(first), gap, Texts(rest));
    }
  }

  lemma WithGap(e: Entry, gap: Bytes)
    requires EntryOk(e) && Unmarked(gap)
    ensures EntryOk(e.(gap := gap)) && EntryText(e.(gap := gap)) == EntryText(e)
  {
    hide Unmarked, First, Keep, Decoded, Free, Marker;
  }

  lemma NoneToTheEnd(text: Bytes, pos: nat)
    requires pos <= |text| && NextBlock(text, pos).Done?
    ensures NoneIn(text, pos, |text|)
  {
    hide Find, At, Marker, Keep, Decoded;
    assert Find(text, BEGIN, pos) == -1;
  }

  /** Exactly the inputs that load: a DER element as it is, or a text of written blocks, in strict mode all of them
      sequences. */
  lemma LoadedIff(input: Bytes, before: seq<Block>, strict: bool, all: seq<Block>)
    ensures Loaded(input, before, strict) == Some(all) <==>
      input != [] && if input[0] == 0x30 then all == before + [Block(Ascii("DER"), input)] else
        && all != [] && (strict ==> forall i :: 0 <= i < |all| ==> all[i].der != [] && all[i].der[0] == 0x30)
        && exists prefix, entries :: WrittenAs(input, prefix, entries) && all == before + BlocksOf(entries)
  {
    hide Blocks, WrittenAs, BlocksOf;
    DerLabel();
    if input != [] && input[0] != 0x30 {
      if Blocks(input, 0).Some? {
        var prefix, entries := TextHere(input, 0);
        assert input[0..] == input;
      }
      forall prefix, entries | WrittenAs(input, prefix, entries)
        ensures Blocks(input, 0) == Some(BlocksOf(entries))
      {
        WrittenLoads(input, prefix, entries);
      }
    }
  }

  lemma DerLabel()
    ensures Ascii("DER") == DER
  {
  }

  lemma WrittenLoads(text: Bytes, prefix: Bytes, entries: seq<Entry>)
    requires WrittenAs(text, prefix, entries)
    ensures Blocks(text, 0) == Some(BlocksOf(entries))
  {
    hide At, Texts, NoneIn, Unmarked, EntriesOk, Blocks;
    AtMiddle(prefix, Texts(entries), []);
    assert prefix + Texts(entries) + [] == text;
    AtMiddle([], prefix, Texts(entries));
    assert [] + prefix + Texts(entries) == text;
    RestBegins(text, |prefix|, entries);
    GapHasNone(text, 0, prefix);
    TextsRead(text, 0, |prefix|, entries);
  }
}
