/**
 String tokens against section 7 of RFC 8259: the grammar allows any four digits after \u, and the scanner
 (src/lib/util/Json.cpp:69-143) accepts such a token exactly when its surrogate escapes are paired. It does not look at
 the encoding of what is not escaped, and neither repairs nor damages it.
 */
module JsonTokens {
  import opened ByteStrings
  import opened Utf
  import opened JsonScanner
  import opened JsonStrings

  // ---- The grammar ------------------------------------------------------------------------------

  /** The grammar's char, by octets: unescaped, a short escape, or \u and four digits. */
  datatype Char = Raw(octet: Byte) | Escaped(letter: Byte) | Code(digits: Bytes)

  predicate CharOk(c: Char) {
    match c
    case Raw(b) => b >= 0x20 && b != QUOTE && b != BACKSLASH
    case Escaped(l) => ShortEscape(l).Some?
    case Code(d) => Quad(d)
  }

  predicate CharsOk(chars: seq<Char>) { forall k :: 0 <= k < |chars| ==> CharOk(chars[k]) }

  function CharText(c: Char): (r: Bytes) {
    match c
    case Raw(b) => [b]
    case Escaped(l) => [BACKSLASH, l]
    case Code(d) => ESCAPE_U + d
  }

  function CharsText(chars: seq<Char>): (r: Bytes) {
    if chars == [] then [] else CharText(chars[0]) + CharsText(chars[1..])
  }

  function TokenText(chars: seq<Char>): (r: Bytes) { [QUOTE] + CharsText(chars) + [QUOTE] }

  /** The short escapes of section 7 of RFC 8259, and what they stand for. */
  lemma ShortEscapesAre()
    ensures ShortEscape(0x22) == Some(0x22) && ShortEscape(0x5C) == Some(0x5C) && ShortEscape(0x2F) == Some(0x2F)
    ensures ShortEscape(0x62) == Some(0x08) && ShortEscape(0x66) == Some(0x0C) && ShortEscape(0x6E) == Some(0x0A)
    ensures ShortEscape(0x72) == Some(0x0D) && ShortEscape(0x74) == Some(0x09)
    ensures forall c :: c !in {0x22, 0x5C, 0x2F, 0x62, 0x66, 0x6E, 0x72, 0x74} ==> ShortEscape(c).None?
  {
  }

  // ---- Pairing ----------------------------------------------------------------------------------

  predicate HighEscape(c: Char) { c.Code? && Quad(c.digits) && IsHigh(Hex(c.digits).value) }

  predicate LowEscape(c: Char) { c.Code? && Quad(c.digits) && IsLow(Hex(c.digits).value) }

  predicate StartsPair(chars: seq<Char>) { |chars| >= 2 && HighEscape(chars[0]) && LowEscape(chars[1]) }

  /** A surrogate escape that the next char does not complete. */
  predicate StartsLone(chars: seq<Char>) {
    chars != [] && !StartsPair(chars) && (HighEscape(chars[0]) || LowEscape(chars[0]))
  }

  function Width(chars: seq<Char>): (n: nat)
    requires chars != []
    ensures 1 <= n <= |chars|
  {
    if StartsPair(chars) then 2 else 1
  }

  /** Each high surrogate escape is directly followed by a low one, and no low one stands alone. */
  predicate EscapesPaired(chars: seq<Char>)
    decreases |chars|
  {
    chars == [] || (!StartsLone(chars) && EscapesPaired(chars[Width(chars)..]))
  }

  // ---- From chars to characters -----------------------------------------------------------------

  function FirstItem(chars: seq<Char>): (i: Item)
    requires chars != []
  {
    if StartsPair(chars) then Surrogates(chars[0].digits, chars[1].digits)
    else match chars[0] case Raw(b) => Plain(b) case Escaped(l) => Short(l) case Code(d) => Unicode(d)
  }

  function Items(chars: seq<Char>): (r: seq<Item>)
    decreases |chars|
  {
    if chars == [] then [] else [FirstItem(chars)] + Items(chars[Width(chars)..])
  }

  lemma {:induction false} HexIsSmall(d: Bytes)
    requires Hex(d).Some?
    ensures Hex(d).value < Sixteens(|d|)
  {
    if d != [] { HexIsSmall(d[..|d| - 1]); }
  }

  function Sixteens(k: nat): (n: nat) { if k == 0 then 1 else 16 * Sixteens(k - 1) }

  lemma QuadIsUnit(d: Bytes)
    requires Quad(d)
    ensures Hex(d).value < 0x1_0000
  {
    hide Hex;
    HexIsSmall(d);
    assert Sixteens(4) == 16 * Sixteens(3) && Sixteens(2) == 16 * Sixteens(1);
  }

  lemma FirstItemOk(chars: seq<Char>)
    requires chars != [] && CharsOk(chars) && !StartsLone(chars)
    ensures ItemOk(FirstItem(chars))
  {
    hide Hex;
    assert CharOk(chars[0]);
    if chars[0].Code? { QuadIsUnit(chars[0].digits); }
  }

  lemma FirstItemText(chars: seq<Char>)
    requires chars != []
    ensures CharsText(chars) == ItemText(FirstItem(chars)) + CharsText(chars[Width(chars)..])
  {
    hide Hex, Quad;
    if StartsPair(chars) {
      var rest := chars[1..];
      assert rest[0] == chars[1] && rest[1..] == chars[2..];
      assert CharsText(rest) == CharText(chars[1]) + CharsText(chars[2..]);
    }
  }

  lemma {:induction false} ItemsAreOk(chars: seq<Char>)
    requires CharsOk(chars) && EscapesPaired(chars)
    ensures ItemsOk(Items(chars)) && Body(Items(chars)) == CharsText(chars)
    decreases |chars|
  {
    hide CharOk, ItemOk, ItemText, FirstItem, StartsLone, Width;
    if chars != [] {
      var rest := chars[Width(chars)..];
      FirstItemOk(chars);
      FirstItemText(chars);
      ItemsAreOk(rest);
      assert Items(chars)[1..] == Items(rest);
    }
  }

  // ---- Refusal ----------------------------------------------------------------------------------

  /** No \u with a low surrogate stands here. */
  predicate Uncompleted(json: Bytes, off: nat) {
    off + 6 <= |json| && json[off] == BACKSLASH && json[off + 1] == 0x75 && HexQuad(json, off + 2).Some? ==>
    !IsLow(HexQuad(json, off + 2).value)
  }

  lemma NotCompleted(json: Bytes, off: nat, rest: seq<Char>)
    requires CharsOk(rest) && At(json, off, CharsText(rest)) && At(json, off + |CharsText(rest)|, [QUOTE])
    requires rest == [] || !LowEscape(rest[0])
    ensures off < |json| && Uncompleted(json, off)
  {
    hide At, HexQuad, Hex;
    if rest == [] {
      AtIndex(json, off, [QUOTE], 0);
    } else {
      var c := rest[0];
      assert CharOk(c);
      AtSplit(json, off, CharText(c), CharsText(rest[1..]));
      AtIndex(json, off, CharText(c), 0);
      match c
      case Raw(b) =>
      case Escaped(l) => AtIndex(json, off, CharText(c), 1);
      case Code(d) => EscapeAt(json, off, d); QuadAt(json, off + 2, d);
    }
  }

  lemma CodeFirst(json: Bytes, off: nat, chars: seq<Char>)
    requires CharsOk(chars) && chars != [] && chars[0].Code?
    requires At(json, off, CharsText(chars)) && At(json, off + |CharsText(chars)|, [QUOTE])
    ensures At(json, off, ESCAPE_U + chars[0].digits) && CharsOk(chars[1..])
    ensures At(json, off + 6, CharsText(chars[1..])) && At(json, off + 6 + |CharsText(chars[1..])|, [QUOTE])
  {
    hide At, Hex;
    assert CharOk(chars[0]);
    AtSplit(json, off, ESCAPE_U + chars[0].digits, CharsText(chars[1..]));
  }

  lemma LoneIsRefused(json: Bytes, off: nat, chars: seq<Char>)
    requires CharsOk(chars) && StartsLone(chars)
    requires At(json, off, CharsText(chars)) && At(json, off + |CharsText(chars)|, [QUOTE])
    ensures off < |json| && StringStep(json, off).Fail?
  {
    hide At, HexQuad, Hex, CharsOk, CharsText, UnicodeEscape, StringStep, Uncompleted;
    var d, rest := chars[0].digits, chars[1..];
    CodeFirst(json, off, chars);
    if LowEscape(chars[0]) {
      LowIsRefused(json, off, d);
    } else {
      NotCompleted(json, off + 6, rest);
      HighIsRefused(json, off, d);
    }
  }

  lemma LowIsRefused(json: Bytes, off: nat, d: Bytes)
    requires Quad(d) && IsLow(Hex(d).value) && At(json, off, ESCAPE_U + d)
    ensures off < |json| && StringStep(json, off).Fail?
  {
    hide At, HexQuad, Hex, Utf8;
    EscapeAt(json, off, d);
    QuadAt(json, off + 2, d);
    Utf8OfScalar(Hex(d).value);
  }

  lemma HighIsRefused(json: Bytes, off: nat, d: Bytes)
    requires Quad(d) && IsHigh(Hex(d).value) && At(json, off, ESCAPE_U + d) && off + 6 < |json|
    requires Uncompleted(json, off + 6)
    ensures StringStep(json, off).Fail?
  {
    hide At, HexQuad, Hex, Utf8;
    EscapeAt(json, off, d);
    QuadAt(json, off + 2, d);
  }

  lemma {:induction false} RestIsRefused(json: Bytes, off: nat, chars: seq<Char>, out: Bytes)
    requires CharsOk(chars) && !EscapesPaired(chars)
    requires At(json, off, CharsText(chars)) && At(json, off + |CharsText(chars)|, [QUOTE])
    ensures off <= |json| && StringRest(json, off, out).None?
    decreases |chars|
  {
    hide At, CharOk, ItemOk, ItemText, ItemMeaning, FirstItem, StartsLone, Width, StringStep, CharsText;
    if StartsLone(chars) {
      LoneIsRefused(json, off, chars);
    } else {
      var i, rest := FirstItem(chars), chars[Width(chars)..];
      FirstItemOk(chars);
      FirstItemText(chars);
      AtSplit(json, off, ItemText(i), CharsText(rest));
      StepOfItem(json, off, i);
      RestIsRefused(json, off + |ItemText(i)|, rest, out + ItemMeaning(i));
    }
  }

  /** A token of the grammar is accepted exactly when its surrogate escapes are paired, and then its text is what its
      characters stand for. */
  lemma TokenAcceptedIff(json: Bytes, off: nat, chars: seq<Char>)
    requires CharsOk(chars) && At(json, off, TokenText(chars))
    ensures String(json, off).Some? <==> EscapesPaired(chars)
    ensures EscapesPaired(chars) ==> ItemsOk(Items(chars))
    ensures EscapesPaired(chars) ==>
      String(json, off) == Some(Str(Meaning(Items(chars)), off + |TokenText(chars)|))
  {
    hide At, CharsOk, EscapesPaired, String, ItemsOk, Items, CharsText, Body, Meaning;
    if EscapesPaired(chars) {
      ItemsAreOk(chars);
      StringAccepts(json, off, Items(chars));
    } else {
      TokenRefused(json, off, chars);
    }
  }

  lemma TokenRefused(json: Bytes, off: nat, chars: seq<Char>)
    requires CharsOk(chars) && At(json, off, TokenText(chars)) && !EscapesPaired(chars)
    ensures String(json, off).None?
  {
    hide At, CharsOk, EscapesPaired, StringRest, CharsText;
    AtSplit3(json, off, [QUOTE], CharsText(chars), [QUOTE]);
    AtIndex(json, off, [QUOTE], 0);
    RestIsRefused(json, off + 1, chars, []);
  }

  /** The token "\uD800" of the grammar, which is refused. */
  lemma LoneEscapeRefused()
    ensures CharsOk([Code([0x44, 0x38, 0x30, 0x30])])
    ensures String(TokenText([Code([0x44, 0x38, 0x30, 0x30])]), 0).None?
  {
    hide String, TokenText;
    var d: Bytes := [0x44, 0x38, 0x30, 0x30];
    HighDigits();
    assert StartsLone([Code(d)]);
    AtWhole(TokenText([Code(d)]));
    TokenAcceptedIff(TokenText([Code(d)]), 0, [Code(d)]);
  }

  lemma HighDigits()
    ensures Hex([0x44, 0x38, 0x30, 0x30]) == Some(0xD800)
  {
    assert Hex([0x44]) == Some(13) by { assert [0x44][..0] == []; }
    HexSnoc([0x44], 0x38);
    assert [0x44] + [0x38] == [0x44, 0x38];
    HexSnoc([0x44, 0x38], 0x30);
    assert [0x44, 0x38] + [0x30] == [0x44, 0x38, 0x30];
    HexSnoc([0x44, 0x38, 0x30], 0x30);
    assert [0x44, 0x38, 0x30] + [0x30] == [0x44, 0x38, 0x30, 0x30];
  }

  // ---- Nothing else is accepted -----------------------------------------------------------------

  function Chars(i: Item): (r: seq<Char>) {
    match i
    case Plain(b) => [Raw(b)]
    case Short(l) => [Escaped(l)]
    case Unicode(d) => [Code(d)]
    case Surrogates(l, t) => [Code(l), Code(t)]
  }

  function AllChars(items: seq<Item>): (r: seq<Char>) {
    if items == [] then [] else Chars(items[0]) + AllChars(items[1..])
  }

  lemma CharsOfItem(i: Item, rest: seq<Char>)
    requires ItemOk(i) && CharsOk(rest) && EscapesPaired(rest)
    ensures CharsOk(Chars(i) + rest) && EscapesPaired(Chars(i) + rest)
    ensures CharsText(Chars(i) + rest) == ItemText(i) + CharsText(rest)
  {
    hide Hex;
    var all := Chars(i) + rest;
    assert all[|Chars(i)|..] == rest;
    if i.Surrogates? {
      assert StartsPair(all);
      assert all[1..][1..] == rest;
      assert CharsText(all[1..]) == CharText(Code(i.trail)) + CharsText(rest);
    } else {
      assert !StartsLone(all) && !StartsPair(all);
    }
  }

  lemma {:induction false} CharsOfItems(items: seq<Item>)
    requires ItemsOk(items)
    ensures CharsOk(AllChars(items)) && EscapesPaired(AllChars(items)) && CharsText(AllChars(items)) == Body(items)
  {
    hide ItemOk, ItemText, Chars, CharsText, EscapesPaired, CharsOk;
    if items != [] {
      CharsOfItems(items[1..]);
      CharsOfItem(items[0], AllChars(items[1..]));
    } else {
      NoChars();
    }
  }

  lemma NoChars()
    ensures CharsOk([]) && EscapesPaired([]) && CharsText([]) == []
  {
  }

  /** Whatever is accepted is a token of the grammar by octets, with its surrogate escapes paired. */
  lemma TokenHere(json: Bytes, off: nat) returns (chars: seq<Char>)
    requires String(json, off).Some?
    ensures CharsOk(chars) && EscapesPaired(chars) && At(json, off, TokenText(chars))
    ensures String(json, off).value.next == off + |TokenText(chars)|
  {
    hide At, String, CharsOk, EscapesPaired, ItemsOk, Body, CharsText;
    var items := StringParts(json, off);
    CharsOfItems(items);
    chars := AllChars(items);
  }

  // ---- The encoding of the text -----------------------------------------------------------------

  lemma HeadChar(a: Bytes, rest: Bytes)
    requires Utf8Char(a)
    ensures Decode(a + rest).Some? <==> Decode(rest).Some?
  {
    hide Utf8Char, ReadUtf8, Utf16, Value;
    CharIsShort(a);
    var s := a + rest;
    assert s[..|a|] == a && s[|a|..] == rest;
    ReadUtf8Meaning(s, |a|);
  }

  lemma AsciiChar(b: Byte)
    requires b < 0x80
    ensures Utf8Char([b])
  {
  }

  lemma {:induction false} AsciiHead(a: Bytes, rest: Bytes)
    requires forall k :: 0 <= k < |a| ==> a[k] < 0x80
    ensures Decode(a + rest).Some? <==> Decode(rest).Some?
  {
    hide Decode, Utf8Char;
    if a == [] {
      assert a + rest == rest;
    } else {
      assert a + rest == [a[0]] + (a[1..] + rest);
      AsciiChar(a[0]);
      HeadChar([a[0]], a[1..] + rest);
      AsciiHead(a[1..], rest);
    }
  }

  /** A char that is read ends before an octet that is no continuation. */
  lemma ReadEnds(a: Bytes, s: Bytes)
    requires a != [] && (s == [] || !IsContinuation(s[0]))
    ensures ReadUtf8(a + s).Some? <==> ReadUtf8(a).Some?
    ensures ReadUtf8(a).Some? ==> ReadUtf8(a + s).value.size == ReadUtf8(a).value.size
  {
    hide ReadUtf8, Utf8Char, Value, IsContinuation, Rejected, Continuations;
    var t := a + s;
    if ReadUtf8(a).Some? {
      var n := ReadUtf8(a).value.size;
      ReadUtf8Meaning(a, n);
      assert t[..n] == a[..n];
      ReadUtf8Meaning(t, n);
    }
    if ReadUtf8(t).Some? {
      var n := ReadUtf8(t).value.size;
      ReadUtf8Meaning(t, n);
      CharIsShort(t[..n]);
      CharIsAccepted(t[..n]);
      assert forall k :: 1 <= k < n ==> IsContinuation(t[..n][k]) && t[..n][k] == t[k];
      assert s != [] ==> t[|a|] == s[0];
      assert t[..n] == a[..n];
      ReadUtf8Meaning(a, n);
    }
  }

  /** Text can be cut before any octet that is no continuation. */
  lemma {:induction false} DecodeCuts(a: Bytes, s: Bytes)
    requires s == [] || !IsContinuation(s[0])
    ensures Decode(a + s).Some? <==> Decode(a).Some? && Decode(s).Some?
    decreases |a|
  {
    hide ReadUtf8, IsContinuation, Utf16;
    if a == [] {
      assert a + s == s;
    } else {
      ReadEnds(a, s);
      if ReadUtf8(a).Some? {
        var n := ReadUtf8(a).value.size;
        assert (a + s)[n..] == a[n..] + s;
        DecodeCuts(a[n..], s);
      }
    }
  }

  lemma EscapeKeeps(i: Item, text: Bytes, meaning: Bytes)
    requires ItemOk(i) && !i.Plain?
    ensures Decode(ItemText(i) + text).Some? <==> Decode(text).Some?
    ensures Decode(ItemMeaning(i) + meaning).Some? <==> Decode(meaning).Some?
    ensures !IsContinuation((ItemText(i) + text)[0])
    ensures ItemMeaning(i) != [] && !IsContinuation((ItemMeaning(i) + meaning)[0])
  {
    hide Decode, Utf8Char, Hex, Utf8, IsContinuation;
    EscapeIsAscii(i);
    AsciiHead(ItemText(i), text);
    NoContinuation(BACKSLASH);
    MeaningIsChar(i);
    HeadChar(ItemMeaning(i), meaning);
    FirstIsLead(ItemMeaning(i));
  }

  lemma NoContinuation(b: Byte)
    requires b < 0x80
    ensures !IsContinuation(b)
  {
  }

  lemma {:induction false} HexIsAscii(d: Bytes)
    requires Hex(d).Some?
    ensures forall k :: 0 <= k < |d| ==> d[k] < 0x80
  {
    if d != [] { HexIsAscii(d[..|d| - 1]); }
  }

  lemma EscapeIsAscii(i: Item)
    requires ItemOk(i) && !i.Plain?
    ensures forall k :: 0 <= k < |ItemText(i)| ==> ItemText(i)[k] < 0x80
    ensures ItemText(i) != [] && ItemText(i)[0] == BACKSLASH
  {
    hide Hex;
    match i
    case Short(_) =>
    case Unicode(d) => HexIsAscii(d);
    case Surrogates(l, t) => HexIsAscii(l); HexIsAscii(t);
  }

  lemma MeaningIsChar(i: Item)
    requires ItemOk(i) && !i.Plain?
    ensures Utf8Char(ItemMeaning(i))
  {
    hide Utf8Char, Hex, Utf8, Value;
    match i
    case Short(c) => AsciiChar(ShortEscape(c).value);
    case Unicode(d) => Utf8IsChar(Hex(d).value);
    case Surrogates(l, t) => Utf8IsChar(PairValue(Hex(l).value, Hex(t).value));
  }

  lemma FirstIsLead(s: Bytes)
    requires Utf8Char(s)
    ensures s != [] && !IsContinuation(s[0])
  {
    hide Utf8Char, Value, Rejected;
    CharIsShort(s);
    CharIsAccepted(s);
  }

  /** With some text before it that is not escaped. */
  lemma {:induction false} RawKeeps(raw: Bytes, items: seq<Item>)
    requires ItemsOk(items)
    ensures Decode(raw + Body(items)).Some? <==> Decode(raw + Meaning(items)).Some?
    decreases |items|
  {
    hide Decode, ItemOk, ItemText, ItemMeaning, Body, Meaning;
    if items == [] {
      NothingMeant();
    } else {
      var i, rest := items[0], items[1..];
      if i.Plain? {
        PlainFirst(raw, items);
        RawKeeps(raw + [i.octet], rest);
      } else {
        RawKeeps([], rest);
        EscapeFirst(raw, items);
      }
    }
  }

  lemma NothingMeant()
    ensures Body([]) == [] && Meaning([]) == []
  {
  }

  lemma PlainFirst(raw: Bytes, items: seq<Item>)
    requires ItemsOk(items) && items != [] && items[0].Plain?
    ensures raw + Body(items) == raw + [items[0].octet] + Body(items[1..])
    ensures raw + Meaning(items) == raw + [items[0].octet] + Meaning(items[1..])
  {
    hide ItemOk, ItemText, ItemMeaning;
    PlainIsItself(items[0]);
    var text, meaning := Body(items[1..]), Meaning(items[1..]);
    assert Body(items) == [items[0].octet] + text && Meaning(items) == [items[0].octet] + meaning;
    hide Body, Meaning;
    Regroup(raw, [items[0].octet], text);
    Regroup(raw, [items[0].octet], meaning);
  }

  lemma EscapeFirst(raw: Bytes, items: seq<Item>)
    requires ItemsOk(items) && items != [] && !items[0].Plain?
    requires Decode([] + Body(items[1..])).Some? <==> Decode([] + Meaning(items[1..])).Some?
    ensures Decode(raw + Body(items)).Some? <==> Decode(raw + Meaning(items)).Some?
  {
    hide Decode, ItemOk, ItemText, ItemMeaning, IsContinuation;
    var text, meaning := Body(items[1..]), Meaning(items[1..]);
    assert [] + text == text && [] + meaning == meaning;
    EscapeKeeps(items[0], text, meaning);
    DecodeCuts(raw, ItemText(items[0]) + text);
    DecodeCuts(raw, ItemMeaning(items[0]) + meaning);
  }

  lemma PlainIsItself(i: Item)
    requires i.Plain? && ItemOk(i)
    ensures ItemText(i) == [i.octet] && ItemMeaning(i) == [i.octet]
  {
  }

  /** The text of an accepted string is well-formed UTF-8 exactly when what stands between the quotes is, as section 8.1
      of RFC 8259 wants it. */
  lemma EncodingIsKept(items: seq<Item>)
    requires ItemsOk(items)
    ensures WellFormed(Meaning(items)) <==> WellFormed(Body(items))
  {
    hide Decode, ItemsOk, WellFormed, Body, Meaning;
    RawKeeps([], items);
    assert [] + Body(items) == Body(items) && [] + Meaning(items) == Meaning(items);
    DecodeAccepts(Body(items));
    DecodeAccepts(Meaning(items));
  }

  /** An accepted string that is not UTF-8. */
  lemma IllFormedAccepted()
    ensures String([QUOTE, 0xFF, QUOTE], 0) == Some(Str([0xFF], 3)) && !WellFormed([0xFF])
  {
    hide Decode, String;
    var items := [Plain(0xFF)];
    assert Body([]) == [] && Meaning([]) == [];
    assert items[1..] == [] && Body(items) == [0xFF] && Meaning(items) == [0xFF];
    assert StringText(items) == [QUOTE, 0xFF, QUOTE];
    AtWhole(StringText(items));
    StringAccepts(StringText(items), 0, items);
    NoSuchLead([0xFF]);
    DecodeAccepts([0xFF]);
  }

  lemma NoSuchLead(s: Bytes)
    requires s != [] && Continuations(s[0]).None?
    ensures Decode(s).None?
  {
  }
}
