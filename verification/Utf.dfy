/**
 UTF-8, UTF-16 and 4-byte wide strings (src/lib/util/Utf.cpp:19-192). Shifts and masks are written as
 division and remainder by the same powers of two.
 */
module Utf {
  import opened ByteStrings

  type Unit = u: int | 0 <= u < 0x1_0000
  /** A 4-byte wchar_t. */
  type Wide = c: int | 0 <= c < 0x1_0000_0000

  predicate IsHigh(u: int) { 0xD800 <= u <= 0xDBFF }
  predicate IsLow(u: int) { 0xDC00 <= u <= 0xDFFF }

  /** Unicode scalar values: code points that are not surrogates. */
  predicate IsScalar(cp: int) { 0 <= cp <= 0x10FFFF && !(0xD800 <= cp <= 0xDFFF) }

  /** A code point read from the front of a sequence, and how many elements it took. */
  datatype Read = Read(cp: nat, size: nat)

  // ---- Single code points -----------------------------------------------------------------------

  /** AppendUtf8CodePoint: the octets it appends. */
  function Utf8(cp: nat): (r: Option<Bytes>) {
    if !IsScalar(cp) then None
    else if cp <= 0x7F then Some([cp])
    else if cp <= 0x7FF then Some([0xC0 + cp / 0x40 % 0x20, 0x80 + cp % 0x40])
    else if cp <= 0xFFFF then Some([0xE0 + cp / 0x1000 % 0x10, 0x80 + cp / 0x40 % 0x40, 0x80 + cp % 0x40])
    else Some([0xF0 + cp / 0x4_0000 % 8, 0x80 + cp / 0x1000 % 0x40, 0x80 + cp / 0x40 % 0x40, 0x80 + cp % 0x40])
  }

  /** How many continuation octets a lead octet announces; None for an impossible lead. */
  function Continuations(lead: Byte): (r: Option<nat>) {
    if lead <= 0x7F then Some(0)
    else if lead / 0x20 == 6 then (if lead % 0x20 == 0 then None else Some(1))
    else if lead / 0x10 == 14 then Some(2)
    else if lead / 8 == 30 then Some(3)
    else None
  }

  predicate IsContinuation(c: Byte) { c / 0x40 == 2 }

  /** The bits a lead octet contributes. */
  function LeadBits(lead: Byte, count: nat): (r: nat) {
    if count == 0 then lead else if count == 1 then lead % 0x20 else if count == 2 then lead % 0x10 else lead % 8
  }

  /** Overlong forms, surrogates and values past the last code point. */
  predicate Rejected(cp: nat, count: nat) {
    || (count == 1 && cp < 0x80) || (count == 2 && cp < 0x800) || (count == 3 && cp < 0x1_0000)
    || cp > 0x10FFFF || 0xD800 <= cp <= 0xDFFF
  }

  /** The code point bits accumulated over k continuation octets; None when one of them is not a continuation. */
  function Accumulate(src: Bytes, bits: nat, k: nat): (r: Option<nat>)
    requires 1 + k <= |src|
  {
    if k == 0 then Some(bits) else
      match Accumulate(src, bits, k - 1)
      case None => None
      case Some(v) => if IsContinuation(src[k]) then Some(v * 0x40 + src[k] % 0x40) else None
  }

  /** One iteration of DecodeUtf8ToUtf16. */
  function ReadUtf8(src: Bytes): (r: Option<Read>)
    requires src != []
    ensures r.Some? ==> 1 <= r.value.size <= |src| && IsScalar(r.value.cp)
  {
    match Continuations(src[0])
    case None => None
    case Some(count) =>
      if 1 + count > |src| then None else
      match Accumulate(src, LeadBits(src[0], count), count)
      case None => None
      case Some(cp) => if Rejected(cp, count) then None else Some(Read(cp, 1 + count))
  }

  /** The units of a code point. */
  function Utf16(cp: nat): (r: seq<Unit>)
    requires cp <= 0x10FFFF
    ensures 1 <= |r| <= 2
  {
    if cp <= 0xFFFF then [cp] else
      var adjusted := cp - 0x1_0000;
      [0xD800 + adjusted / 0x400 % 0x400, 0xDC00 + adjusted % 0x400]
  }

  /** The code point of a surrogate pair. */
  function PairValue(high: int, low: int): (cp: nat)
    requires IsHigh(high) && IsLow(low)
    ensures 0x1_0000 <= cp <= 0x10FFFF
  {
    0x1_0000 + (high - 0xD800) * 0x400 + (low - 0xDC00)
  }

  /** One iteration of EncodeUtf16ToUtf8, up to the append: unpaired surrogates are refused. */
  function ReadUtf16(src: seq<Unit>): (r: Option<Read>)
    requires src != []
    ensures r.Some? ==> 1 <= r.value.size <= |src| && IsScalar(r.value.cp)
  {
    if IsHigh(src[0]) then
      if |src| < 2 || !IsLow(src[1]) then None
      else Some(Read(PairValue(src[0], src[1]), 2))
    else if IsLow(src[0]) then None
    else Some(Read(src[0], 1))
  }

  // ---- Whole strings ----------------------------------------------------------------------------

  function Prepend<T>(out: seq<T>, rest: Option<seq<T>>): (r: Option<seq<T>>) {
    match rest case None => None case Some(s) => Some(out + s)
  }

  function Decode(src: Bytes): (r: Option<seq<Unit>>)
    decreases |src|
  {
    if src == [] then Some([]) else
      match ReadUtf8(src)
      case None => None
      case Some(c) => Prepend(Utf16(c.cp), Decode(src[c.size..]))
  }

  function Encode(src: seq<Unit>): (r: Option<Bytes>)
    decreases |src|
  {
    if src == [] then Some([]) else
      match ReadUtf16(src)
      case None => None
      case Some(c) =>
        match Utf8(c.cp)
        case None => None
        case Some(octets) => Prepend(octets, Encode(src[c.size..]))
  }

  // ---- The loops --------------------------------------------------------------------------------

  lemma PrependTwice<T>(a: seq<T>, b: seq<T>, rest: Option<seq<T>>)
    ensures Prepend(a, Prepend(b, rest)) == Prepend(a + b, rest)
  {
    if rest.Some? { assert a + (b + rest.value) == a + b + rest.value; }
  }

  lemma PrependNothing<T>(src: seq<T>)
    ensures src[0..] == src && forall rest: Option<Bytes> :: Prepend([], rest) == rest
    ensures forall rest: Option<seq<Unit>> :: Prepend([], rest) == rest
  {
    assert forall s: Bytes :: [] + s == s;
    assert forall s: seq<Unit> :: [] + s == s;
  }

  method ReadContinuations(src: Bytes, start: nat, bits: nat, count: nat) returns (ok: bool, i: nat, cp: nat)
    requires start + 1 + count <= |src|
    ensures ok <==> Accumulate(src[start..], bits, count).Some?
    ensures ok ==> i == start + 1 + count && cp == Accumulate(src[start..], bits, count).value
  {
    ok, i, cp := true, start + 1, bits;
    var j := 0;
    while j < count
      invariant 0 <= j <= count && i == start + 1 + j
      invariant Accumulate(src[start..], bits, j) == Some(cp)
    {
      var c := src[i];
      i := i + 1;
      if c / 0x40 != 2 {
        AccumulateFails(src[start..], bits, j + 1, count);
        return false, i, cp;
      }
      cp := cp * 0x40 + c % 0x40;
      j := j + 1;
    }
  }

  lemma {:induction false} AccumulateFails(src: Bytes, bits: nat, j: nat, k: nat)
    requires j <= k && 1 + k <= |src| && Accumulate(src, bits, j).None?
    ensures Accumulate(src, bits, k).None?
  {
    if j < k { AccumulateFails(src, bits, j, k - 1); }
  }

  method DecodeUtf8ToUtf16(src: Bytes) returns (ok: bool, out: seq<Unit>)
    ensures ok <==> Decode(src).Some?
    ensures ok ==> Decode(src).value == out
  {
    hide Accumulate, LeadBits;
    ok, out := true, [];
    var i := 0;
    PrependNothing(src);
    while i < |src|
      invariant 0 <= i <= |src| && Decode(src) == Prepend(out, Decode(src[i..]))
    {
      var lead := src[i];
      var count := Continuations(lead);
      if count.None? || i + 1 + count.value > |src| { return false, out; }
      var fine, next, cp := ReadContinuations(src, i, LeadBits(lead, count.value), count.value);
      if !fine || Rejected(cp, count.value) { return false, out; }
      assert src[i..][1 + count.value..] == src[next..];
      PrependTwice(out, Utf16(cp), Decode(src[next..]));
      out := out + Utf16(cp);
      i := next;
    }
  }

  method EncodeUtf16ToUtf8(src: seq<Unit>) returns (ok: bool, out: Bytes)
    ensures ok <==> Encode(src).Some?
    ensures ok ==> Encode(src).value == out
  {
    hide Utf8;
    ok, out := true, [];
    var i := 0;
    PrependNothing(src);
    while i < |src|
      invariant 0 <= i <= |src| && Encode(src) == Prepend(out, Encode(src[i..]))
    {
      var cp: nat := src[i];
      ghost var start := i;
      if IsHigh(src[i]) {
        if i + 1 >= |src| || !IsLow(src[i + 1]) { return false, out; }
        cp := PairValue(src[i], src[i + 1]);
        i := i + 1;
      } else if IsLow(src[i]) {
        return false, out;
      }
      i := i + 1;
      var octets := Utf8(cp);
      if octets.None? { return false, out; }
      assert src[start..][i - start..] == src[i..];
      PrependTwice(out, octets.value, Encode(src[i..]));
      out := out + octets.value;
    }
  }

  // ---- Well-formed UTF-8 -----------------------------------------------------------------------------

  predicate Tail(c: Byte) { 0x80 <= c <= 0xBF }

  /** UTF8-char of section 4 of RFC 3629. */
  predicate Utf8Char(s: Bytes) {
    || (|s| == 1 && s[0] <= 0x7F)
    || (|s| == 2 && 0xC2 <= s[0] <= 0xDF && Tail(s[1]))
    || (|s| == 3 && s[0] == 0xE0 && 0xA0 <= s[1] <= 0xBF && Tail(s[2]))
    || (|s| == 3 && 0xE1 <= s[0] <= 0xEC && Tail(s[1]) && Tail(s[2]))
    || (|s| == 3 && s[0] == 0xED && 0x80 <= s[1] <= 0x9F && Tail(s[2]))
    || (|s| == 3 && 0xEE <= s[0] <= 0xEF && Tail(s[1]) && Tail(s[2]))
    || (|s| == 4 && s[0] == 0xF0 && 0x90 <= s[1] <= 0xBF && Tail(s[2]) && Tail(s[3]))
    || (|s| == 4 && 0xF1 <= s[0] <= 0xF3 && Tail(s[1]) && Tail(s[2]) && Tail(s[3]))
    || (|s| == 4 && s[0] == 0xF4 && 0x80 <= s[1] <= 0x8F && Tail(s[2]) && Tail(s[3]))
  }

  /** UTF8-octets of section 4 of RFC 3629: a sequence of UTF8-chars. */
  ghost predicate WellFormed(s: Bytes)
    decreases |s|
  {
    s == [] || exists n :: 0 < n <= |s| && Utf8Char(s[..n]) && WellFormed(s[n..])
  }

  function Bits(c: Byte, m: nat): (v: nat)
    requires m > 0
    ensures v < m
  {
    c % m
  }

  /** The accumulated value, written out. */
  function Value(s: Bytes): (v: int)
    requires 1 <= |s| <= 4
  {
    if |s| == 1 then s[0]
    else if |s| == 2 then Bits(s[0], 0x20) * 0x40 + Bits(s[1], 0x40)
    else if |s| == 3 then (Bits(s[0], 0x10) * 0x40 + Bits(s[1], 0x40)) * 0x40 + Bits(s[2], 0x40)
    else ((Bits(s[0], 8) * 0x40 + Bits(s[1], 0x40)) * 0x40 + Bits(s[2], 0x40)) * 0x40 + Bits(s[3], 0x40)
  }

  lemma AccumulateIs(src: Bytes, n: nat)
    requires 1 <= n <= 4 && n <= |src|
    ensures var a := Accumulate(src, LeadBits(src[0], n - 1), n - 1);
            && (a.Some? <==> forall i :: 1 <= i < n ==> IsContinuation(src[i]))
            && (a.Some? ==> a.value == Value(src[..n]))
  {
    var bits := LeadBits(src[0], n - 1);
    assert Accumulate(src, bits, 0) == Some(bits);
    if n > 1 { assert Accumulate(src, bits, 1).Some? <==> IsContinuation(src[1]); }
    if n > 2 { assert Accumulate(src, bits, 2).Some? <==> Accumulate(src, bits, 1).Some? && IsContinuation(src[2]); }
    if n > 3 { assert Accumulate(src, bits, 3).Some? <==> Accumulate(src, bits, 2).Some? && IsContinuation(src[3]); }
  }

  /** A UTF8-char with continuation octets in place is one the decoder does not reject, and the other way round. */
  lemma CharIsAccepted(s: Bytes)
    requires 1 <= |s| <= 4
    ensures Utf8Char(s) <==>
              && Continuations(s[0]) == Some(|s| - 1) && (forall i :: 1 <= i < |s| ==> IsContinuation(s[i]))
              && !Rejected(Value(s), |s| - 1)
  {
    if |s| == 1 { CharOne(s); }
    else if |s| == 2 { CharTwo(s); }
    else if |s| == 3 { CharThree(s); }
    else { CharFour(s); }
  }

  lemma CharOne(s: Bytes)
    requires |s| == 1
    ensures Utf8Char(s) <==> Continuations(s[0]) == Some(0) && !Rejected(Value(s), 0)
  {
  }

  lemma CharTwo(s: Bytes)
    requires |s| == 2
    ensures Utf8Char(s) <==> Continuations(s[0]) == Some(1) && IsContinuation(s[1]) && !Rejected(Value(s), 1)
  {
  }

  lemma CharThree(s: Bytes)
    requires |s| == 3
    ensures Utf8Char(s) <==>
              Continuations(s[0]) == Some(2) && IsContinuation(s[1]) && IsContinuation(s[2]) && !Rejected(Value(s), 2)
  {
  }

  lemma CharFour(s: Bytes)
    requires |s| == 4
    ensures Utf8Char(s) <==>
              && Continuations(s[0]) == Some(3) && IsContinuation(s[1]) && IsContinuation(s[2]) && IsContinuation(s[3])
              && !Rejected(Value(s), 3)
  {
  }

  /** What one decoding step reads is a UTF8-char, and every leading UTF8-char is read. */
  lemma ReadUtf8Meaning(src: Bytes, n: nat)
    requires 0 < n <= |src|
    ensures Utf8Char(src[..n]) <==> ReadUtf8(src).Some? && ReadUtf8(src).value.size == n
    ensures Utf8Char(src[..n]) ==> ReadUtf8(src).value.cp == Value(src[..n])
  {
    hide Utf8Char, Accumulate, Value, Rejected, LeadBits;
    if n <= 4 {
      CharIsAccepted(src[..n]);
      AccumulateIs(src, n);
    } else {
      CharIsShort(src[..n]);
    }
  }

  lemma CharIsShort(s: Bytes)
    ensures Utf8Char(s) ==> 1 <= |s| <= 4
  {
  }

  /** Decoding accepts exactly well-formed UTF-8. */
  lemma {:induction false} DecodeAccepts(src: Bytes)
    ensures Decode(src).Some? <==> WellFormed(src)
    decreases |src|
  {
    hide Utf8Char, ReadUtf8, Utf16;
    if src != [] {
      if ReadUtf8(src).Some? {
        var n := ReadUtf8(src).value.size;
        ReadUtf8Meaning(src, n);
        DecodeAccepts(src[n..]);
      }
      forall n | 0 < n <= |src| && Utf8Char(src[..n]) && WellFormed(src[n..]) ensures Decode(src).Some? {
        ReadUtf8Meaning(src, n);
        DecodeAccepts(src[n..]);
      }
    }
  }

  lemma Split64(x: int, y: int)
    requires 0 <= y < 0x40
    ensures (x * 0x40 + y) / 0x40 == x && (x * 0x40 + y) % 0x40 == y
  {
  }

  lemma Div64(v: nat)
    ensures v / 0x1000 == v / 0x40 / 0x40 && v / 0x4_0000 == v / 0x1000 / 0x40
    ensures v == v / 0x40 * 0x40 + v % 0x40
  {
  }

  /** The octets of two, three and four digits in base 64 form a UTF8-char with that value. */
  lemma Utf8Two(a: nat, b: nat)
    requires a < 0x20 && b < 0x40 && 0x80 <= a * 0x40 + b
    ensures var s := [0xC0 + a, 0x80 + b]; Utf8(a * 0x40 + b) == Some(s) && Utf8Char(s) && Value(s) == a * 0x40 + b
  {
    Split64(a, b);
  }

  lemma Utf8Three(a: nat, b: nat, c: nat)
    requires a < 0x10 && b < 0x40 && c < 0x40
    requires 0x800 <= (a * 0x40 + b) * 0x40 + c && IsScalar((a * 0x40 + b) * 0x40 + c)
    ensures var s := [0xE0 + a, 0x80 + b, 0x80 + c];
            Utf8((a * 0x40 + b) * 0x40 + c) == Some(s) && Utf8Char(s) && Value(s) == (a * 0x40 + b) * 0x40 + c
  {
    hide Utf8, Utf8Char;
    ThreeIsChar(a, b, c);
    ThreeOctets(a, b, c);
  }

  lemma ThreeIsChar(a: nat, b: nat, c: nat)
    requires a < 0x10 && b < 0x40 && c < 0x40
    requires 0x800 <= (a * 0x40 + b) * 0x40 + c && IsScalar((a * 0x40 + b) * 0x40 + c)
    ensures Utf8Char([0xE0 + a, 0x80 + b, 0x80 + c])
  {
  }

  lemma ThreeOctets(a: nat, b: nat, c: nat)
    requires a < 0x10 && b < 0x40 && c < 0x40
    requires 0x800 <= (a * 0x40 + b) * 0x40 + c && IsScalar((a * 0x40 + b) * 0x40 + c)
    ensures Utf8((a * 0x40 + b) * 0x40 + c) == Some([0xE0 + a, 0x80 + b, 0x80 + c])
  {
    var v := (a * 0x40 + b) * 0x40 + c;
    Split64(a * 0x40 + b, c);
    Split64(a, b);
    Div64(v);
  }

  lemma Utf8Four(a: nat, b: nat, c: nat, d: nat)
    requires a < 8 && b < 0x40 && c < 0x40 && d < 0x40
    requires 0x1_0000 <= ((a * 0x40 + b) * 0x40 + c) * 0x40 + d <= 0x10FFFF
    ensures var s := [0xF0 + a, 0x80 + b, 0x80 + c, 0x80 + d];
            && Utf8(((a * 0x40 + b) * 0x40 + c) * 0x40 + d) == Some(s) && Utf8Char(s)
            && Value(s) == ((a * 0x40 + b) * 0x40 + c) * 0x40 + d
  {
    hide Utf8, Utf8Char;
    FourOctets(a, b, c, d);
    FourIsChar(a, b, c, d);
  }

  lemma FourIsChar(a: nat, b: nat, c: nat, d: nat)
    requires a < 8 && b < 0x40 && c < 0x40 && d < 0x40
    requires 0x1_0000 <= ((a * 0x40 + b) * 0x40 + c) * 0x40 + d <= 0x10FFFF
    ensures Utf8Char([0xF0 + a, 0x80 + b, 0x80 + c, 0x80 + d])
  {
  }

  lemma FourOctets(a: nat, b: nat, c: nat, d: nat)
    requires a < 8 && b < 0x40 && c < 0x40 && d < 0x40
    requires 0x1_0000 <= ((a * 0x40 + b) * 0x40 + c) * 0x40 + d <= 0x10FFFF
    ensures Utf8(((a * 0x40 + b) * 0x40 + c) * 0x40 + d) == Some([0xF0 + a, 0x80 + b, 0x80 + c, 0x80 + d])
  {
    var v := ((a * 0x40 + b) * 0x40 + c) * 0x40 + d;
    Split64((a * 0x40 + b) * 0x40 + c, d);
    Split64(a * 0x40 + b, c);
    Split64(a, b);
    Div64(v);
  }

  lemma Utf8One(a: nat)
    requires a <= 0x7F
    ensures Utf8(a) == Some([a]) && Utf8Char([a]) && Value([a]) == a
  {
  }

  lemma CharDigits(s: Bytes)
    requires Utf8Char(s)
    ensures 1 <= |s| <= 4 && IsScalar(Value(s))
    ensures |s| == 2 ==> s == [0xC0 + Bits(s[0], 0x20), 0x80 + Bits(s[1], 0x40)] && Value(s) >= 0x80
    ensures |s| == 3 ==> Value(s) >= 0x800
    ensures |s| == 3 ==> s == [0xE0 + Bits(s[0], 0x10), 0x80 + Bits(s[1], 0x40), 0x80 + Bits(s[2], 0x40)]
    ensures |s| == 4 ==>
              && s == [0xF0 + Bits(s[0], 8), 0x80 + Bits(s[1], 0x40), 0x80 + Bits(s[2], 0x40), 0x80 + Bits(s[3], 0x40)]
              && Value(s) >= 0x1_0000
  {
  }

  lemma Utf8OfValue(s: Bytes)
    requires Utf8Char(s)
    ensures 1 <= |s| <= 4 && Value(s) >= 0 && Utf8(Value(s)) == Some(s)
  {
    hide Utf8, Utf8Char, Bits;
    CharDigits(s);
    if |s| == 1 { OneIsAscii(s); Utf8One(s[0]); }
    else if |s| == 2 { Utf8Two(Bits(s[0], 0x20), Bits(s[1], 0x40)); }
    else if |s| == 3 { Utf8Three(Bits(s[0], 0x10), Bits(s[1], 0x40), Bits(s[2], 0x40)); }
    else { Utf8Four(Bits(s[0], 8), Bits(s[1], 0x40), Bits(s[2], 0x40), Bits(s[3], 0x40)); }
  }

  lemma OneIsAscii(s: Bytes)
    requires Utf8Char(s) && |s| == 1
    ensures s[0] <= 0x7F && s == [s[0]]
  {
  }

  /** A code point below 2^24 in base 64. */
  lemma Base64Digits(cp: nat)
    ensures cp == cp / 0x40 * 0x40 + cp % 0x40
    ensures cp == (cp / 0x1000 * 0x40 + cp / 0x40 % 0x40) * 0x40 + cp % 0x40
    ensures cp == ((cp / 0x4_0000 * 0x40 + cp / 0x1000 % 0x40) * 0x40 + cp / 0x40 % 0x40) * 0x40 + cp % 0x40
  {
    Div64(cp);
    Div64(cp / 0x40);
    Div64(cp / 0x1000);
  }

  lemma Utf8IsChar(cp: nat)
    requires IsScalar(cp)
    ensures Utf8(cp).Some? && Utf8Char(Utf8(cp).value) && Value(Utf8(cp).value) == cp
  {
    hide Utf8, Utf8Char, Value;
    Base64Digits(cp);
    if cp <= 0x7F { Utf8One(cp); }
    else if cp <= 0x7FF { Utf8Two(cp / 0x40, cp % 0x40); }
    else if cp <= 0xFFFF { Utf8Three(cp / 0x1000, cp / 0x40 % 0x40, cp % 0x40); }
    else { Utf8Four(cp / 0x4_0000, cp / 0x1000 % 0x40, cp / 0x40 % 0x40, cp % 0x40); }
  }

  /** What is read is what would be written. */
  lemma ReadThenWrite8(src: Bytes)
    requires src != [] && ReadUtf8(src).Some?
    ensures Utf8(ReadUtf8(src).value.cp) == Some(src[..ReadUtf8(src).value.size])
  {
    hide Utf8Char, Utf8, ReadUtf8, Value;
    var n := ReadUtf8(src).value.size;
    ReadUtf8Meaning(src, n);
    Utf8OfValue(src[..n]);
  }

  lemma WriteThenRead8(cp: nat, rest: Bytes)
    requires IsScalar(cp)
    ensures Utf8(cp).Some? && Utf8(cp).value != []
    ensures ReadUtf8(Utf8(cp).value + rest) == Some(Read(cp, |Utf8(cp).value|))
  {
    hide Utf8Char, Utf8, ReadUtf8, Value;
    Utf8IsChar(cp);
    var o := Utf8(cp).value;
    CharIsShort(o);
    assert (o + rest)[..|o|] == o;
    ReadUtf8Meaning(o + rest, |o|);
  }

  lemma ReadThenWrite16(src: seq<Unit>)
    requires src != [] && ReadUtf16(src).Some?
    ensures Utf16(ReadUtf16(src).value.cp) == src[..ReadUtf16(src).value.size]
  {
    if IsHigh(src[0]) { PairSplits(src[0], src[1]); }
  }

  lemma PairSplits(high: int, low: int)
    requires IsHigh(high) && IsLow(low)
    ensures Utf16(PairValue(high, low)) == [high, low]
  {
  }

  lemma WriteThenRead16(cp: nat, rest: seq<Unit>)
    requires IsScalar(cp)
    ensures ReadUtf16(Utf16(cp) + rest) == Some(Read(cp, |Utf16(cp)|))
  {
  }

  /** Encoding undoes decoding on everything decoding accepts. */
  lemma {:induction false} DecodeThenEncode(src: Bytes)
    requires Decode(src).Some?
    ensures Encode(Decode(src).value) == Some(src)
    decreases |src|
  {
    hide Utf8, Utf16, ReadUtf8, ReadUtf16;
    if src != [] {
      var c := ReadUtf8(src).value;
      var rest := src[c.size..];
      ReadThenWrite8(src);
      DecodeThenEncode(rest);
      var units, more := Utf16(c.cp), Decode(rest).value;
      WriteThenRead16(c.cp, more);
      assert (units + more)[|units|..] == more;
      assert src[..c.size] + rest == src;
    }
  }

  /** Decoding undoes encoding on everything encoding accepts. */
  lemma {:induction false} EncodeThenDecode(src: seq<Unit>)
    requires Encode(src).Some?
    ensures Decode(Encode(src).value) == Some(src)
    decreases |src|
  {
    hide Utf8, Utf16, ReadUtf8, ReadUtf16;
    if src != [] {
      var c := ReadUtf16(src).value;
      var rest := src[c.size..];
      ReadThenWrite16(src);
      EncodeThenDecode(rest);
      var octets, more := Utf8(c.cp).value, Encode(rest).value;
      WriteThenRead8(c.cp, more);
      assert (octets + more)[|octets|..] == more;
      assert src[..c.size] + rest == src;
    }
  }

  /** Encoding accepts exactly the sequences whose surrogates come in pairs, high before low. */
  ghost predicate Paired(src: seq<Unit>)
    decreases |src|
  {
    src == []
    || (!IsHigh(src[0]) && !IsLow(src[0]) && Paired(src[1..]))
    || (|src| >= 2 && IsHigh(src[0]) && IsLow(src[1]) && Paired(src[2..]))
  }

  lemma {:induction false} EncodeAccepts(src: seq<Unit>)
    ensures Encode(src).Some? <==> Paired(src)
    decreases |src|
  {
    hide Utf8;
    if src != [] && ReadUtf16(src).Some? {
      var c := ReadUtf16(src).value;
      WriteThenRead8(c.cp, []);
      EncodeAccepts(src[c.size..]);
    }
  }

  // ---- Wide strings -----------------------------------------------------------------------------

  /** Utf16ToWide with a 4-byte wchar_t: pairs are joined, anything else passes through. */
  function ToWide(src: seq<Unit>): (r: seq<Wide>)
    decreases |src|
  {
    if src == [] then []
    else if IsHigh(src[0]) && |src| >= 2 && IsLow(src[1]) then [PairValue(src[0], src[1])] + ToWide(src[2..])
    else [src[0]] + ToWide(src[1..])
  }

  /** The units WideToUtf16 pushes for one character: masks, not checks, above the last code point. */
  function WideUnits(c: Wide): (r: seq<Unit>) {
    if c <= 0xFFFF then [c] else
      var adjusted := c - 0x1_0000;
      [0xD800 + adjusted / 0x400 % 0x400, 0xDC00 + adjusted % 0x400]
  }

  function FromWide(src: seq<Wide>): (r: seq<Unit>)
    decreases |src|
  {
    if src == [] then [] else WideUnits(src[0]) + FromWide(src[1..])
  }

  method Utf16ToWide(src: seq<Unit>) returns (out: seq<Wide>)
    ensures out == ToWide(src)
  {
    out := [];
    var i := 0;
    assert src[0..] == src && [] + ToWide(src) == ToWide(src);
    while i < |src|
      invariant 0 <= i <= |src| && out + ToWide(src[i..]) == ToWide(src)
    {
      var c, n := src[i] as int, 1;
      if IsHigh(src[i]) && i + 1 < |src| && IsLow(src[i + 1]) {
        c, n := PairValue(src[i], src[i + 1]), 2;
      }
      WideStep(src, i, c, n, out);
      out, i := out + [c], i + n;
    }
  }

  lemma WideStep(src: seq<Unit>, i: nat, c: Wide, n: nat, out: seq<Wide>)
    requires i + n <= |src| && i < |src|
    requires if IsHigh(src[i]) && i + 1 < |src| && IsLow(src[i + 1]) then n == 2 && c == PairValue(src[i], src[i + 1])
             else n == 1 && c == src[i]
    ensures out + ToWide(src[i..]) == out + [c] + ToWide(src[i + n..])
  {
    hide PairValue;
    assert src[i..][n..] == src[i + n..];
    assert ToWide(src[i..]) == [c] + ToWide(src[i + n..]);
  }

  method WideToUtf16(src: seq<Wide>) returns (out: seq<Unit>)
    ensures out == FromWide(src)
  {
    hide WideUnits;
    out := [];
    var i := 0;
    assert src[0..] == src && [] + FromWide(src) == FromWide(src);
    while i < |src|
      invariant 0 <= i <= |src| && out + FromWide(src[i..]) == FromWide(src)
    {
      assert src[i..][1..] == src[i + 1..];
      assert out + (WideUnits(src[i]) + FromWide(src[i + 1..])) == out + WideUnits(src[i]) + FromWide(src[i + 1..]);
      out := out + WideUnits(src[i]);
      i := i + 1;
    }
  }

  /** Widening loses nothing, not even from ill-formed UTF-16. */
  lemma {:induction false} WideRoundTrip(src: seq<Unit>)
    ensures FromWide(ToWide(src)) == src
    decreases |src|
  {
    if src != [] {
      var joined := IsHigh(src[0]) && |src| >= 2 && IsLow(src[1]);
      var n := if joined then 2 else 1;
      WideRoundTrip(src[n..]);
      var w := ToWide(src);
      assert w[1..] == ToWide(src[n..]);
      if joined { PairSplits(src[0], src[1]); }
      assert WideUnits(w[0]) == src[..n];
      assert src[..n] + src[n..] == src;
    }
  }

  /** The units of a text, given as code points. */
  function UnitsOf(text: seq<Wide>): (r: seq<Unit>)
    requires forall i :: 0 <= i < |text| ==> IsScalar(text[i])
  {
    if text == [] then [] else
      assert IsScalar(text[0]);
      Utf16(text[0]) + UnitsOf(text[1..])
  }

  /** For text, a wide string is one character for each code point. */
  lemma {:induction false} WideIsCodePoints(text: seq<Wide>)
    requires forall i :: 0 <= i < |text| ==> IsScalar(text[i])
    ensures ToWide(UnitsOf(text)) == text && FromWide(text) == UnitsOf(text)
  {
    if text != [] {
      var c, rest := text[0], text[1..];
      WideIsCodePoints(rest);
      hide UnitsOf, FromWide;
      FirstCodePoint(text);
      WideOfFirst(c, UnitsOf(rest));
      assert [c] + rest == text;
    }
  }

  lemma FirstCodePoint(text: seq<Wide>)
    requires text != [] && forall i :: 0 <= i < |text| ==> IsScalar(text[i])
    ensures UnitsOf(text) == Utf16(text[0]) + UnitsOf(text[1..])
    ensures FromWide(text) == Utf16(text[0]) + FromWide(text[1..])
  {
  }

  lemma WideOfFirst(c: Wide, rest: seq<Unit>)
    requires IsScalar(c)
    ensures ToWide(Utf16(c) + rest) == [c] + ToWide(rest)
  {
    var u := Utf16(c);
    assert (u + rest)[|u|..] == rest;
    if c > 0xFFFF {
      var a := c - 0x1_0000;
      assert a == a / 0x400 * 0x400 + a % 0x400 && a / 0x400 < 0x400;
      assert u[0] == 0xD800 + a / 0x400 && u[1] == 0xDC00 + a % 0x400;
      assert PairValue(u[0], u[1]) == c;
    }
  }
}
