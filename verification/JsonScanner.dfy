/**
 The JSON scanner (src/lib/util/Json.cpp:38-347): the cursor loops, and the functions they compute. A cursor that a
 C++ function advances by reference is an argument and a result here.
 */
module JsonScanner {
  import opened ByteStrings
  import opened Decimal
  import opened Utf

  const QUOTE: Byte := 0x22
  const BACKSLASH: Byte := 0x5C
  const MAX_DEPTH: nat := 100

  // ---- Strings ----------------------------------------------------------------------------------

  /** The value of k hexadecimal digits at an offset. */
  function HexDigits(json: Bytes, off: nat, k: nat): (r: Option<nat>)
    requires off + k <= |json|
  {
    if k == 0 then Some(0) else
      match HexDigits(json, off, k - 1)
      case None => None
      case Some(v) => match HexValue(json[off + k - 1]) case None => None case Some(d) => Some(v * 16 + d)
  }

  function HexQuad(json: Bytes, off: nat): (r: Option<nat>) {
    if off + 4 > |json| then None else HexDigits(json, off, 4)
  }

  /** What the one-character escapes stand for. */
  function ShortEscape(c: Byte): (r: Option<Byte>) {
    if c == QUOTE || c == BACKSLASH || c == 0x2F then Some(c)
    else if c == 0x62 then Some(0x08)
    else if c == 0x66 then Some(0x0C)
    else if c == 0x6E then Some(0x0A)
    else if c == 0x72 then Some(0x0D)
    else if c == 0x74 then Some(0x09)
    else None
  }

  /** What one turn of the string loop does: give up, meet the closing quote, or append octets and go on. */
  datatype Step = Fail | Close | Emit(octets: Bytes, next: nat)

  /** The code point of a \\u escape whose digits start at `off`, with the trail surrogate when there is one. */
  function UnicodeEscape(json: Bytes, off: nat): (r: Option<Read>)
    ensures r.Some? ==> off + r.value.size <= |json| && r.value.size >= 4
  {
    match HexQuad(json, off)
    case None => None
    case Some(lead) =>
      if !IsHigh(lead) then Some(Read(lead, 4))
      else if off + 10 > |json| || json[off + 4] != BACKSLASH || json[off + 5] != 0x75 then None
      else match HexQuad(json, off + 6)
        case None => None
        case Some(trail) => if IsLow(trail) then Some(Read(PairValue(lead, trail), 10)) else None
  }

  function EscapeStep(json: Bytes, off: nat): (r: Step)
    requires off < |json|
    ensures r.Emit? ==> off < r.next <= |json|
  {
    if json[off] == 0x75 then
      match UnicodeEscape(json, off + 1)
      case None => Fail
      case Some(c) => match Utf8(c.cp) case None => Fail case Some(o) => Emit(o, off + 1 + c.size)
    else
      match ShortEscape(json[off]) case None => Fail case Some(b) => Emit([b], off + 1)
  }

  function StringStep(json: Bytes, off: nat): (r: Step)
    requires off < |json|
    ensures r.Emit? ==> off < r.next <= |json|
  {
    if json[off] == QUOTE then Close
    else if json[off] < 0x20 then Fail
    else if json[off] != BACKSLASH then Emit([json[off]], off + 1)
    else if off + 1 >= |json| then Fail
    else EscapeStep(json, off + 1)
  }

  /** A decoded string and the offset after its closing quote. */
  datatype Str = Str(text: Bytes, next: nat)

  function StringRest(json: Bytes, off: nat, out: Bytes): (r: Option<Str>)
    requires off <= |json|
    ensures r.Some? ==> off < r.value.next <= |json|
    decreases |json| - off
  {
    if off == |json| then None else
      match StringStep(json, off)
      case Fail => None
      case Close => Some(Str(out, off + 1))
      case Emit(o, next) => StringRest(json, next, out + o)
  }

  function String(json: Bytes, off: nat): (r: Option<Str>)
    ensures r.Some? ==> off < r.value.next <= |json|
  {
    if off >= |json| || json[off] != QUOTE then None else StringRest(json, off + 1, [])
  }

  method ParseJsonHexQuad(json: Bytes, start: nat) returns (ok: bool, value: nat)
    ensures ok <==> HexQuad(json, start).Some?
    ensures ok ==> value == HexQuad(json, start).value
  {
    ok, value := false, 0;
    if start + 4 > |json| { return; }
    var i := 0;
    while i < 4
      invariant 0 <= i <= 4 && HexDigits(json, start, i) == Some(value)
    {
      var d := HexValue(json[start + i]);
      if d.None? {
        HexDigitsFail(json, start, i + 1, 4);
        return;
      }
      value := value * 16 + d.value;
      i := i + 1;
    }
    ok := true;
  }

  lemma {:induction false} HexDigitsFail(json: Bytes, off: nat, j: nat, k: nat)
    requires j <= k && off + k <= |json| && HexDigits(json, off, j).None?
    ensures HexDigits(json, off, k).None?
  {
    if j < k { HexDigitsFail(json, off, j, k - 1); }
  }

  method ParseUnicodeEscape(json: Bytes, off: nat) returns (ok: bool, cp: nat, next: nat)
    ensures ok <==> UnicodeEscape(json, off).Some?
    ensures ok ==> off < next && UnicodeEscape(json, off).value == Read(cp, next - off)
  {
    hide HexQuad;
    next := off + 4;
    ok, cp := ParseJsonHexQuad(json, off);
    if !ok { return; }
    if IsHigh(cp) {
      if next + 6 > |json| || json[next] != BACKSLASH || json[next + 1] != 0x75 { return false, cp, next; }
      var trail;
      ok, trail := ParseJsonHexQuad(json, next + 2);
      if !ok || !IsLow(trail) { return false, cp, next; }
      cp, next := PairValue(cp, trail), next + 6;
    }
  }

  method ParseJsonString(json: Bytes, start: nat) returns (ok: bool, next: nat, out: Bytes)
    ensures ok <==> String(json, start).Some?
    ensures ok ==> String(json, start).value == Str(out, next)
  {
    hide UnicodeEscape, Utf8;
    ok, next, out := false, start, [];
    if start >= |json| || json[start] != QUOTE { return; }
    next := start + 1;
    while next < |json|
      invariant start < next <= |json| && !ok
      invariant StringRest(json, next, out) == StringRest(json, start + 1, [])
    {
      var ch := json[next];
      if ch == QUOTE { return true, next + 1, out; }
      if ch < 0x20 { return; }
      if ch != BACKSLASH {
        out, next := out + [ch], next + 1;
        continue;
      }
      if next + 1 >= |json| { return; }
      var escaped := json[next + 1];
      if escaped == 0x75 {
        var found, cp, after := ParseUnicodeEscape(json, next + 2);
        if !found { return; }
        var octets := Utf8(cp);
        if octets.None? { return; }
        out, next := out + octets.value, after;
      } else {
        var b := ShortEscape(escaped);
        if b.None? { return; }
        out, next := out + [b.value], next + 2;
      }
    }
  }

  // ---- Numbers and literals -----------------------------------------------------------------------

  /** At least one digit, and all that follow it. */
  function Digits(json: Bytes, off: nat): (r: Option<nat>)
    ensures r.Some? ==> off < r.value <= |json|
  {
    if off < |json| && IsDigit(json[off]) then Some(DigitsEnd(json, off)) else None
  }

  function IntEnd(json: Bytes, off: nat): (r: Option<nat>)
    ensures r.Some? ==> off < r.value <= |json|
  {
    if off < |json| && json[off] == 0x30 then Some(off + 1) else Digits(json, off)
  }

  function FractionEnd(json: Bytes, off: nat): (r: Option<nat>)
    requires off <= |json|
    ensures r.Some? ==> off <= r.value <= |json|
  {
    if off < |json| && json[off] == 0x2E then Digits(json, off + 1) else Some(off)
  }

  function ExponentEnd(json: Bytes, off: nat): (r: Option<nat>)
    requires off <= |json|
    ensures r.Some? ==> off <= r.value <= |json|
  {
    if off < |json| && (json[off] == 0x65 || json[off] == 0x45) then
      var signed := off + 1 < |json| && (json[off + 1] == 0x2B || json[off + 1] == 0x2D);
      Digits(json, if signed then off + 2 else off + 1)
    else Some(off)
  }

  function NumberEnd(json: Bytes, off: nat): (r: Option<nat>)
    requires off < |json|
    ensures r.Some? ==> off < r.value <= |json|
  {
    match IntEnd(json, if json[off] == 0x2D then off + 1 else off)
    case None => None
    case Some(p) => match FractionEnd(json, p) case None => None case Some(q) => ExponentEnd(json, q)
  }

  method SkipDigits(json: Bytes, start: nat) returns (next: nat)
    requires start <= |json|
    ensures next == DigitsEnd(json, start)
  {
    next := start;
    while next < |json| && IsDigit(json[next])
      invariant start <= next <= |json| && DigitsEnd(json, next) == DigitsEnd(json, start)
    {
      next := next + 1;
    }
  }

  method SkipFraction(json: Bytes, start: nat) returns (ok: bool, next: nat)
    requires start <= |json|
    ensures ok <==> FractionEnd(json, start).Some?
    ensures ok ==> FractionEnd(json, start).value == next
  {
    hide DigitsEnd;
    ok, next := true, start;
    if next < |json| && json[next] == 0x2E {
      next := next + 1;
      if next >= |json| || !IsDigit(json[next]) { return false, next; }
      next := SkipDigits(json, next);
    }
  }

  method SkipExponent(json: Bytes, start: nat) returns (ok: bool, next: nat)
    requires start <= |json|
    ensures ok <==> ExponentEnd(json, start).Some?
    ensures ok ==> ExponentEnd(json, start).value == next
  {
    hide DigitsEnd;
    ok, next := true, start;
    if next < |json| && (json[next] == 0x65 || json[next] == 0x45) {
      next := next + 1;
      if next < |json| && (json[next] == 0x2B || json[next] == 0x2D) { next := next + 1; }
      if next >= |json| || !IsDigit(json[next]) { return false, next; }
      next := SkipDigits(json, next);
    }
  }

  method SkipJsonNumberToken(json: Bytes, start: nat) returns (ok: bool, next: nat)
    requires start < |json|
    ensures ok <==> NumberEnd(json, start).Some?
    ensures ok ==> NumberEnd(json, start).value == next
  {
    hide DigitsEnd, FractionEnd, ExponentEnd;
    ok, next := false, start;
    if json[next] == 0x2D { next := next + 1; }
    if next >= |json| { return; }
    if json[next] == 0x30 {
      next := next + 1;
    } else {
      if !IsDigit(json[next]) { return; }
      next := SkipDigits(json, next);
    }
    ok, next := SkipFraction(json, next);
    if !ok { return; }
    ok, next := SkipExponent(json, next);
  }

  const TRUE: Bytes := [0x74, 0x72, 0x75, 0x65]
  const FALSE: Bytes := [0x66, 0x61, 0x6C, 0x73, 0x65]
  const NULL: Bytes := [0x6E, 0x75, 0x6C, 0x6C]

  function LiteralEnd(json: Bytes, off: nat, literal: Bytes): (r: Option<nat>)
    ensures r.Some? ==> r.value == off + |literal| <= |json|
  {
    if At(json, off, literal) then Some(off + |literal|) else None
  }

  // ---- Values -----------------------------------------------------------------------------------

  function StringEnd(json: Bytes, off: nat): (r: Option<nat>)
    ensures r.Some? ==> off < r.value <= |json|
  {
    match String(json, off) case None => None case Some(s) => Some(s.next)
  }

  function Closer(keyed: bool): (c: Byte) { if keyed then 0x7D else 0x5D }

  /** SkipJsonValue: where the value that starts after white space ends. */
  function Skip(json: Bytes, off: nat, enclosing: nat): (r: Option<nat>)
    requires off <= |json|
    ensures r.Some? ==> off < r.value <= |json|
    decreases |json| - off, 2
  {
    var p := SpacesEnd(json, off);
    if p == |json| then None
    else if json[p] == QUOTE then StringEnd(json, p)
    else if json[p] == 0x7B then Composite(json, p, true, enclosing + 1)
    else if json[p] == 0x5B then Composite(json, p, false, enclosing + 1)
    else if json[p] == 0x74 then LiteralEnd(json, p, TRUE)
    else if json[p] == 0x66 then LiteralEnd(json, p, FALSE)
    else if json[p] == 0x6E then LiteralEnd(json, p, NULL)
    else NumberEnd(json, p)
  }

  /** SkipJsonComposite, the opening bracket being at `off`. */
  function Composite(json: Bytes, off: nat, keyed: bool, depth: nat): (r: Option<nat>)
    requires off < |json|
    ensures r.Some? ==> off < r.value <= |json|
    decreases |json| - off, 1
  {
    if depth > MAX_DEPTH then None else
      var p := SpacesEnd(json, off + 1);
      if p < |json| && json[p] == Closer(keyed) then Some(p + 1) else Members(json, p, keyed, depth)
  }

  /** A key, its colon, and the white space around it. */
  function KeyEnd(json: Bytes, off: nat): (r: Option<nat>)
    ensures r.Some? ==> off < r.value <= |json|
  {
    match StringEnd(json, off)
    case None => None
    case Some(k) =>
      var p := SpacesEnd(json, k);
      if p == |json| || json[p] != 0x3A then None else Some(SpacesEnd(json, p + 1))
  }

  /** The loop over the members or elements of a composite. */
  function Members(json: Bytes, off: nat, keyed: bool, depth: nat): (r: Option<nat>)
    requires off <= |json|
    ensures r.Some? ==> off < r.value <= |json|
    decreases |json| - off, 3
  {
    if off == |json| then None else
    var start := if keyed then KeyEnd(json, off) else Some(off);
    if start.None? then None else
    var value := Skip(json, start.value, depth);
    if value.None? then None else
    var p := SpacesEnd(json, value.value);
    if p == |json| then None
    else if json[p] == Closer(keyed) then Some(p + 1)
    else if json[p] != 0x2C then None
    else Members(json, SpacesEnd(json, p + 1), keyed, depth)
  }

  method SkipJsonWhitespace(json: Bytes, start: nat) returns (next: nat)
    requires start <= |json|
    ensures next == SpacesEnd(json, start)
  {
    next := start;
    while next < |json| && IsSpace(json[next])
      invariant start <= next <= |json| && SpacesEnd(json, next) == SpacesEnd(json, start)
    {
      next := next + 1;
    }
  }

  method SkipJsonValue(json: Bytes, start: nat, enclosing: nat) returns (ok: bool, next: nat)
    requires start <= |json|
    ensures ok <==> Skip(json, start, enclosing).Some?
    ensures ok ==> Skip(json, start, enclosing).value == next
    decreases |json| - start, 2
  {
    hide String, Members, NumberEnd, At;
    next := SkipJsonWhitespace(json, start);
    ok := false;
    if next >= |json| { return; }
    var ch := json[next];
    if ch == QUOTE {
      var ignored;
      ok, next, ignored := ParseJsonString(json, next);
    } else if ch == 0x7B {
      ok, next := SkipJsonComposite(json, next, true, enclosing + 1);
    } else if ch == 0x5B {
      ok, next := SkipJsonComposite(json, next, false, enclosing + 1);
    } else if ch == 0x74 {
      ok, next := SkipJsonLiteralToken(json, next, TRUE);
    } else if ch == 0x66 {
      ok, next := SkipJsonLiteralToken(json, next, FALSE);
    } else if ch == 0x6E {
      ok, next := SkipJsonLiteralToken(json, next, NULL);
    } else {
      ok, next := SkipJsonNumberToken(json, next);
    }
  }

  method SkipJsonLiteralToken(json: Bytes, start: nat, literal: Bytes) returns (ok: bool, next: nat)
    ensures ok <==> LiteralEnd(json, start, literal).Some?
    ensures ok ==> LiteralEnd(json, start, literal).value == next
  {
    ok, next := At(json, start, literal), start + |literal|;
  }

  method SkipKey(json: Bytes, start: nat) returns (ok: bool, next: nat)
    ensures ok <==> KeyEnd(json, start).Some?
    ensures ok ==> KeyEnd(json, start).value == next
  {
    hide String;
    var key;
    ok, next, key := ParseJsonString(json, start);
    if !ok { return; }
    next := SkipJsonWhitespace(json, next);
    if next >= |json| || json[next] != 0x3A { return false, next; }
    next := SkipJsonWhitespace(json, next + 1);
  }

  lemma MembersNeedKey(json: Bytes, off: nat, depth: nat)
    requires off < |json| && KeyEnd(json, off).None?
    ensures Members(json, off, true, depth).None?
  {
    hide Skip, KeyEnd, SpacesEnd;
  }

  /** What Members makes of the value that starts here, after the key if there is one. */
  lemma MembersStep(json: Bytes, off: nat, keyed: bool, depth: nat, start: nat)
    requires off < |json| && if keyed then KeyEnd(json, off) == Some(start) else start == off
    ensures Skip(json, start, depth).None? ==> Members(json, off, keyed, depth).None?
    ensures Skip(json, start, depth).Some? ==>
      && var p := SpacesEnd(json, Skip(json, start, depth).value);
      Members(json, off, keyed, depth) ==
        if p == |json| then None
        else if json[p] == Closer(keyed) then Some(p + 1)
        else if json[p] != 0x2C then None
        else Members(json, SpacesEnd(json, p + 1), keyed, depth)
  {
    hide Skip, KeyEnd, SpacesEnd, Closer;
  }

  /** One turn of the loop over members: a failure, the end of the composite, or the start of the next member. */
  method SkipMember(json: Bytes, start: nat, keyed: bool, depth: nat) returns (ok: bool, done: bool, next: nat)
    requires start < |json|
    ensures ok ==> start < next <= |json|
    ensures !ok ==> Members(json, start, keyed, depth).None?
    ensures ok && done ==> Members(json, start, keyed, depth) == Some(next)
    ensures ok && !done ==> Members(json, start, keyed, depth) == Members(json, next, keyed, depth)
    decreases |json| - start, 3
  {
    hide Skip, KeyEnd, SpacesEnd, Members, Closer;
    ok, done, next := true, false, start;
    if keyed {
      ok, next := SkipKey(json, next);
      if !ok {
        MembersNeedKey(json, start, depth);
        return;
      }
    }
    MembersStep(json, start, keyed, depth, next);
    ok, next := SkipJsonValue(json, next, depth);
    if !ok { return; }
    next := SkipJsonWhitespace(json, next);
    if next >= |json| { return false, done, next; }
    if json[next] == Closer(keyed) { return true, true, next + 1; }
    if json[next] != 0x2C { return false, done, next; }
    next := SkipJsonWhitespace(json, next + 1);
  }

  method SkipJsonComposite(json: Bytes, start: nat, keyed: bool, depth: nat) returns (ok: bool, next: nat)
    requires start < |json|
    ensures ok <==> Composite(json, start, keyed, depth).Some?
    ensures ok ==> Composite(json, start, keyed, depth).value == next
    decreases |json| - start, 1
  {
    ok, next := false, start;
    if depth > MAX_DEPTH { return; }
    next := SkipJsonWhitespace(json, start + 1);
    if next < |json| && json[next] == Closer(keyed) { return true, next + 1; }
    hide Members, SpacesEnd;
    ghost var first := next;
    assert Composite(json, start, keyed, depth) == Members(json, first, keyed, depth);
    hide Composite;
    while next < |json|
      invariant start < next <= |json| && !ok
      invariant Members(json, next, keyed, depth) == Members(json, first, keyed, depth)
      decreases |json| - next
    {
      var done;
      ok, done, next := SkipMember(json, next, keyed, depth);
      if !ok || done { return; }
      ok := false;
    }
    NoMembers(json, keyed, depth);
  }

  lemma NoMembers(json: Bytes, keyed: bool, depth: nat)
    ensures Members(json, |json|, keyed, depth).None?
  {
  }
}
