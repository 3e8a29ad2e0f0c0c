/**
 JSON strings: the characters that ParseJsonString accepts as data, what it makes of them, and EscapeJson, which it
 undoes for every octet string. JsonTokens compares them with the grammar of section 7 of RFC 8259.
 */
module JsonStrings {
  import opened ByteStrings
  import opened Utf
  import opened JsonScanner

  // ---- The characters ---------------------------------------------------------------------------

  /** One character of a string: an octet as itself, a short escape, \u and four digits, or two of those. */
  datatype Item =
    Plain(octet: Byte) | Short(letter: Byte) | Unicode(digits: Bytes) | Surrogates(lead: Bytes, trail: Bytes)

  /** The number that hexadecimal digits write. */
  function Hex(d: Bytes): (r: Option<nat>) {
    if d == [] then Some(0) else
      match Hex(d[..|d| - 1])
      case None => None
      case Some(v) => match HexValue(d[|d| - 1]) case None => None case Some(x) => Some(v * 16 + x)
  }

  predicate Quad(d: Bytes) { |d| == 4 && Hex(d).Some? }

  predicate ItemOk(i: Item) {
    match i
    case Plain(b) => b >= 0x20 && b != QUOTE && b != BACKSLASH
    case Short(c) => ShortEscape(c).Some?
    case Unicode(d) => Quad(d) && IsScalar(Hex(d).value)
    case Surrogates(l, t) => Quad(l) && Quad(t) && IsHigh(Hex(l).value) && IsLow(Hex(t).value)
  }

  const ESCAPE_U: Bytes := [BACKSLASH, 0x75]

  function ItemText(i: Item): (r: Bytes) {
    match i
    case Plain(b) => [b]
    case Short(c) => [BACKSLASH, c]
    case Unicode(d) => ESCAPE_U + d
    case Surrogates(l, t) => ESCAPE_U + l + (ESCAPE_U + t)
  }

  /** The octets the character stands for: UTF-8, except that a plain octet stands for itself. */
  function ItemMeaning(i: Item): (r: Bytes)
    requires ItemOk(i)
  {
    match i
    case Plain(b) => [b]
    case Short(c) => [ShortEscape(c).value]
    case Unicode(d) => Utf8(Hex(d).value).value
    case Surrogates(l, t) => Utf8(PairValue(Hex(l).value, Hex(t).value)).value
  }

  predicate ItemsOk(items: seq<Item>) { forall k :: 0 <= k < |items| ==> ItemOk(items[k]) }

  function Body(items: seq<Item>): (r: Bytes) {
    if items == [] then [] else ItemText(items[0]) + Body(items[1..])
  }

  function Meaning(items: seq<Item>): (r: Bytes)
    requires ItemsOk(items)
  {
    if items == [] then [] else ItemMeaning(items[0]) + Meaning(items[1..])
  }

  /** The whole token. */
  function StringText(items: seq<Item>): (r: Bytes) { [QUOTE] + Body(items) + [QUOTE] }

  // ---- Scanning a character ---------------------------------------------------------------------

  lemma {:induction false} HexDigitsAt(json: Bytes, off: nat, k: nat)
    requires off + k <= |json|
    ensures HexDigits(json, off, k) == Hex(json[off..off + k])
  {
    if k > 0 {
      HexDigitsAt(json, off, k - 1);
      var d := json[off..off + k];
      assert d[..k - 1] == json[off..off + k - 1];
    }
  }

  lemma QuadAt(json: Bytes, off: nat, d: Bytes)
    requires At(json, off, d) && Quad(d)
    ensures HexQuad(json, off) == Hex(d)
  {
    HexDigitsAt(json, off, 4);
  }

  lemma QuadHere(json: Bytes, off: nat) returns (d: Bytes)
    requires HexQuad(json, off).Some?
    ensures At(json, off, d) && Quad(d) && HexQuad(json, off) == Hex(d)
  {
    HexDigitsAt(json, off, 4);
    d := json[off..off + 4];
  }

  lemma EscapeAt(json: Bytes, off: nat, d: Bytes)
    requires At(json, off, ESCAPE_U + d)
    ensures off + 2 + |d| <= |json| && json[off] == BACKSLASH && json[off + 1] == 0x75 && At(json, off + 2, d)
  {
    AtSplit(json, off, ESCAPE_U, d);
    AtIndex(json, off, ESCAPE_U, 0);
    AtIndex(json, off, ESCAPE_U, 1);
  }

  lemma AtEscape(json: Bytes, off: nat, d: Bytes)
    requires off + 2 <= |json| && json[off] == BACKSLASH && json[off + 1] == 0x75 && At(json, off + 2, d)
    ensures At(json, off, ESCAPE_U + d)
  {
    assert json[off..off + 2] == ESCAPE_U;
    AtJoin(json, off, ESCAPE_U, d);
  }

  lemma StepOfUnicode(json: Bytes, off: nat, d: Bytes)
    requires ItemOk(Unicode(d)) && At(json, off, ItemText(Unicode(d)))
    ensures StringStep(json, off) == Emit(ItemMeaning(Unicode(d)), off + 6)
  {
    hide At, HexQuad, Hex, Utf8;
    EscapeAt(json, off, d);
    QuadAt(json, off + 2, d);
    Utf8OfScalar(Hex(d).value);
  }

  lemma StepOfSurrogates(json: Bytes, off: nat, l: Bytes, t: Bytes)
    requires ItemOk(Surrogates(l, t)) && At(json, off, ItemText(Surrogates(l, t)))
    ensures StringStep(json, off) == Emit(ItemMeaning(Surrogates(l, t)), off + 12)
  {
    hide At, HexQuad, Hex, Utf8;
    AtSplit(json, off, ESCAPE_U + l, ESCAPE_U + t);
    EscapeAt(json, off, l);
    EscapeAt(json, off + 6, t);
    QuadAt(json, off + 2, l);
    QuadAt(json, off + 8, t);
    assert UnicodeEscape(json, off + 2) == Some(Read(PairValue(Hex(l).value, Hex(t).value), 10));
    Utf8OfScalar(PairValue(Hex(l).value, Hex(t).value));
  }

  lemma StepOfItem(json: Bytes, off: nat, i: Item)
    requires ItemOk(i) && At(json, off, ItemText(i))
    ensures off < |json| && ItemText(i) != []
    ensures StringStep(json, off) == Emit(ItemMeaning(i), off + |ItemText(i)|)
  {
    hide UnicodeEscape, Hex, Utf8;
    AtIndex(json, off, ItemText(i), 0);
    match i
    case Plain(b) =>
    case Short(c) => AtIndex(json, off, ItemText(i), 1);
    case Unicode(d) => StepOfUnicode(json, off, d);
    case Surrogates(l, t) => StepOfSurrogates(json, off, l, t);
  }

  lemma ItemOfUnicode(json: Bytes, off: nat) returns (i: Item)
    requires off + 1 < |json| && json[off] == BACKSLASH && json[off + 1] == 0x75 && StringStep(json, off).Emit?
    ensures ItemOk(i) && At(json, off, ItemText(i))
    ensures StringStep(json, off) == Emit(ItemMeaning(i), off + |ItemText(i)|)
  {
    hide At, HexQuad, Hex, Utf8;
    var l := QuadHere(json, off + 2);
    AtEscape(json, off, l);
    if IsHigh(Hex(l).value) {
      var t := QuadHere(json, off + 8);
      AtEscape(json, off + 6, t);
      AtJoin(json, off, ESCAPE_U + l, ESCAPE_U + t);
      i := Surrogates(l, t);
      StepOfSurrogates(json, off, l, t);
    } else {
      i := Unicode(l);
      Utf8OfScalar(Hex(l).value);
      StepOfUnicode(json, off, l);
    }
  }

  lemma Utf8OfScalar(cp: nat)
    ensures Utf8(cp).Some? <==> IsScalar(cp)
  {
  }

  lemma ItemOfStep(json: Bytes, off: nat) returns (i: Item)
    requires off < |json| && StringStep(json, off).Emit?
    ensures ItemOk(i) && At(json, off, ItemText(i))
    ensures StringStep(json, off) == Emit(ItemMeaning(i), off + |ItemText(i)|)
  {
    hide At, UnicodeEscape, Hex, Utf8;
    if json[off] != BACKSLASH {
      i := Plain(json[off]);
      AtOne(json, off);
    } else if json[off + 1] == 0x75 {
      i := ItemOfUnicode(json, off);
    } else {
      i := Short(json[off + 1]);
      AtTwo(json, off);
    }
  }

  // ---- Scanning a string ------------------------------------------------------------------------

  lemma {:induction false} RestOfItems(json: Bytes, off: nat, items: seq<Item>, out: Bytes)
    requires ItemsOk(items) && At(json, off, Body(items)) && At(json, off + |Body(items)|, [QUOTE])
    ensures off <= |json|
    ensures StringRest(json, off, out) == Some(Str(out + Meaning(items), off + |Body(items)| + 1))
    decreases |items|
  {
    hide At, ItemOk, ItemText, ItemMeaning, Body, Meaning, StringRest, StringStep;
    BodyUnfolds(items);
    if items == [] {
      AtIndex(json, off, [QUOTE], 0);
      RestCloses(json, off, out);
      assert out + [] == out;
    } else {
      var i, rest := items[0], items[1..];
      AtSplit(json, off, ItemText(i), Body(rest));
      StepOfItem(json, off, i);
      RestSteps(json, off, out);
      RestOfItems(json, off + |ItemText(i)|, rest, out + ItemMeaning(i));
      Regroup(out, ItemMeaning(i), Meaning(rest));
    }
  }

  lemma BodyUnfolds(items: seq<Item>)
    requires ItemsOk(items)
    ensures items == [] ==> Body(items) == [] && Meaning(items) == []
    ensures items != [] ==> Body(items) == ItemText(items[0]) + Body(items[1..])
    ensures items != [] ==> Meaning(items) == ItemMeaning(items[0]) + Meaning(items[1..])
  {
    hide ItemOk, ItemText, ItemMeaning;
  }

  lemma RestCloses(json: Bytes, off: nat, out: Bytes)
    requires off < |json| && json[off] == QUOTE
    ensures StringRest(json, off, out) == Some(Str(out, off + 1))
  {
  }

  lemma RestSteps(json: Bytes, off: nat, out: Bytes)
    requires off < |json| && StringStep(json, off).Emit?
    ensures var step := StringStep(json, off);
      StringRest(json, off, out) == StringRest(json, step.next, out + step.octets)
  {
    hide StringStep;
  }

  lemma {:induction false} ItemsOfRest(json: Bytes, off: nat, out: Bytes) returns (items: seq<Item>)
    requires off <= |json| && StringRest(json, off, out).Some?
    ensures ItemsOk(items) && At(json, off, Body(items)) && At(json, off + |Body(items)|, [QUOTE])
    decreases |json| - off
  {
    hide At, ItemOk, ItemText, ItemMeaning;
    if StringStep(json, off).Close? {
      items := [];
      CloseHere(json, off);
    } else {
      var i := ItemOfStep(json, off);
      var rest := ItemsOfRest(json, off + |ItemText(i)|, out + ItemMeaning(i));
      items := [i] + rest;
      assert items[1..] == rest;
      AtJoin(json, off, ItemText(i), Body(rest));
    }
  }

  lemma CloseHere(json: Bytes, off: nat)
    requires off < |json| && StringStep(json, off).Close?
    ensures At(json, off, []) && At(json, off, [QUOTE])
  {
    assert json[off..off + 1] == [json[off]];
  }

  /** Every token of such characters is accepted, and means what its characters mean. */
  lemma StringAccepts(json: Bytes, off: nat, items: seq<Item>)
    requires ItemsOk(items) && At(json, off, StringText(items))
    ensures String(json, off) == Some(Str(Meaning(items), off + |StringText(items)|))
  {
    hide At, StringRest, ItemsOk;
    AtSplit3(json, off, [QUOTE], Body(items), [QUOTE]);
    AtIndex(json, off, [QUOTE], 0);
    RestOfItems(json, off + 1, items, []);
    assert [] + Meaning(items) == Meaning(items);
  }

  /** Nothing else is accepted. */
  lemma StringParts(json: Bytes, off: nat) returns (items: seq<Item>)
    requires String(json, off).Some?
    ensures ItemsOk(items) && At(json, off, StringText(items))
    ensures String(json, off) == Some(Str(Meaning(items), off + |StringText(items)|))
  {
    hide StringRest, ItemsOk;
    items := ItemsOfRest(json, off + 1, []);
    assert json[off..off + 1] == [QUOTE];
    AtJoin(json, off, [QUOTE], Body(items));
    AtJoin(json, off, [QUOTE] + Body(items), [QUOTE]);
    StringAccepts(json, off, items);
  }

  // ---- EscapeJson -------------------------------------------------------------------------------

  function HexLower(d: nat): (c: Byte)
    requires d < 16
  {
    if d < 10 then 0x30 + d else 0x61 + (d - 10)
  }

  function EscapeByte(b: Byte): (r: Bytes) {
    if b == BACKSLASH || b == QUOTE then [BACKSLASH, b]
    else if b == 0x0A then [BACKSLASH, 0x6E]
    else if b == 0x0D then [BACKSLASH, 0x72]
    else if b == 0x09 then [BACKSLASH, 0x74]
    else if b == 0x08 then [BACKSLASH, 0x62]
    else if b == 0x0C then [BACKSLASH, 0x66]
    else if b < 0x20 then ESCAPE_U + [0x30, 0x30, HexLower(b / 16), HexLower(b % 16)]
    else [b]
  }

  function Escape(s: Bytes): (r: Bytes) {
    if s == [] then [] else EscapeByte(s[0]) + Escape(s[1..])
  }

  method EscapeJson(value: Bytes) returns (out: Bytes)
    ensures out == Escape(value)
  {
    hide EscapeByte;
    out := [];
    var i := 0;
    while i < |value|
      invariant 0 <= i <= |value| && out + Escape(value[i..]) == Escape(value)
    {
      assert value[i..][1..] == value[i + 1..];
      Regroup(out, EscapeByte(value[i]), Escape(value[i + 1..]));
      out := out + EscapeByte(value[i]);
      i := i + 1;
    }
    assert value[|value|..] == [];
  }

  lemma ItemOfEscape(b: Byte) returns (i: Item)
    ensures ItemOk(i) && ItemText(i) == EscapeByte(b) && ItemMeaning(i) == [b]
  {
    hide Hex, Utf8;
    if ShortEscape(b).Some? && b < 0x60 && b != 0x2F {
      i := Short(b);
    } else if b == 0x0A { i := Short(0x6E); }
    else if b == 0x0D { i := Short(0x72); }
    else if b == 0x09 { i := Short(0x74); }
    else if b == 0x08 { i := Short(0x62); }
    else if b == 0x0C { i := Short(0x66); }
    else if b < 0x20 {
      i := Unicode([0x30, 0x30, HexLower(b / 16), HexLower(b % 16)]);
      ControlDigits(b);
      Utf8OfAscii(b);
    } else {
      i := Plain(b);
    }
  }

  lemma Utf8OfAscii(b: Byte)
    requires b < 0x80
    ensures Utf8(b) == Some([b])
  {
  }

  lemma ControlDigits(b: Byte)
    requires b < 0x20
    ensures Hex([0x30, 0x30, HexLower(b / 16), HexLower(b % 16)]) == Some(b)
  {
    var x, y := HexLower(b / 16), HexLower(b % 16);
    assert Hex([0x30]) == Some(0) by { assert [0x30][..0] == []; }
    HexSnoc([0x30], 0x30);
    assert [0x30] + [0x30] == [0x30, 0x30];
    HexSnoc([0x30, 0x30], x);
    assert [0x30, 0x30] + [x] == [0x30, 0x30, x];
    HexSnoc([0x30, 0x30, x], y);
    assert [0x30, 0x30, x] + [y] == [0x30, 0x30, x, y];
  }

  lemma HexSnoc(d: Bytes, c: Byte)
    requires Hex(d).Some? && HexValue(c).Some?
    ensures Hex(d + [c]) == Some(Hex(d).value * 16 + HexValue(c).value)
  {
    assert (d + [c])[..|d|] == d;
  }

  lemma {:induction false} ItemsOfEscape(s: Bytes) returns (items: seq<Item>)
    ensures ItemsOk(items) && Body(items) == Escape(s) && Meaning(items) == s
  {
    hide ItemOk, ItemText, ItemMeaning, EscapeByte;
    items := [];
    if s != [] {
      var i := ItemOfEscape(s[0]);
      var rest := ItemsOfEscape(s[1..]);
      items := [i] + rest;
      assert items[1..] == rest;
      assert s == [s[0]] + s[1..];
    }
  }

  function Quoted(s: Bytes): (r: Bytes) { [QUOTE] + Escape(s) + [QUOTE] }

  /** The printer and the parser agree, wherever in a document the string stands. */
  lemma QuotedReadsBack(json: Bytes, off: nat, s: Bytes)
    requires At(json, off, Quoted(s))
    ensures String(json, off) == Some(Str(s, off + |Quoted(s)|))
  {
    hide At, String;
    var items := ItemsOfEscape(s);
    StringAccepts(json, off, items);
  }

  /** No octet of a printed string can be taken for the end of it, or is a control character. */
  lemma {:induction false} EscapedIsClean(s: Bytes, k: nat)
    requires k < |Escape(s)|
    ensures Escape(s)[k] >= 0x20
    ensures Escape(s)[k] == QUOTE ==> k > 0 && Escape(s)[k - 1] == BACKSLASH
  {
    var n := |EscapeByte(s[0])|;
    if k >= n {
      EscapedIsClean(s[1..], k - n);
      assert Escape(s)[k] == Escape(s[1..])[k - n];
      assert k > n ==> Escape(s)[k - 1] == Escape(s[1..])[k - n - 1];
    } else {
      assert Escape(s)[k] == EscapeByte(s[0])[k];
    }
  }
}
