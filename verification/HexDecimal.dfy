/**
 Serial numbers in decimal (src/lib/xades/XadesBuilder.cpp:53-78): HexToDecimal multiplies a vector of decimal digits by
 sixteen in place. For hex strings of any length the result is the canonical numeral of the number they denote.
 */
module HexDecimal {
  import opened ByteStrings
  import opened Decimal

  type Digits = seq<nat>

  /** The number the hexadecimal digits of a text denote; other characters are passed over. */
  function HexNumber(hex: Bytes): (n: nat) {
    if hex == [] then 0 else
      var before := HexNumber(hex[..|hex| - 1]);
      match HexValue(hex[|hex| - 1]) case None => before case Some(v) => before * 16 + v
  }

  /** The number of decimal digits, least significant first. */
  function Value(d: Digits): (n: nat) { if d == [] then 0 else d[0] + 10 * Value(d[1..]) }

  predicate Decimals(d: Digits) { forall i :: 0 <= i < |d| ==> d[i] < 10 }

  /** Decimal digits without a superfluous leading zero. */
  predicate Canonical(d: Digits) { d != [] && Decimals(d) && (|d| == 1 || d[|d| - 1] != 0) }

  /** The digits that the carry adds at the end. */
  function CarryDigits(carry: nat): (r: Digits) { if carry == 0 then [] else [carry % 10] + CarryDigits(carry / 10) }

  /** The vector times sixteen plus a carry. */
  function TimesSixteen(d: Digits, carry: nat): (r: Digits) {
    if d == [] then CarryDigits(carry)
    else [(d[0] * 16 + carry) % 10] + TimesSixteen(d[1..], (d[0] * 16 + carry) / 10)
  }

  // ---- What the loops compute -------------------------------------------------------------------

  lemma {:induction false} CarryValue(carry: nat)
    ensures Value(CarryDigits(carry)) == carry && Decimals(CarryDigits(carry))
    ensures carry > 0 ==> CarryDigits(carry) != [] && CarryDigits(carry)[|CarryDigits(carry)| - 1] != 0
  {
    if carry > 0 {
      CarryValue(carry / 10);
      assert CarryDigits(carry)[1..] == CarryDigits(carry / 10);
    }
  }

  lemma {:induction false} TimesValue(d: Digits, carry: nat)
    ensures Value(TimesSixteen(d, carry)) == 16 * Value(d) + carry
    decreases |d|
  {
    hide CarryDigits;
    if d == [] {
      CarryValue(carry);
    } else {
      var p := d[0] * 16 + carry;
      TimesValue(d[1..], p / 10);
      assert TimesSixteen(d, carry)[1..] == TimesSixteen(d[1..], p / 10);
    }
  }

  lemma {:induction false} TimesDecimals(d: Digits, carry: nat)
    requires Decimals(d)
    ensures Decimals(TimesSixteen(d, carry)) && |TimesSixteen(d, carry)| >= |d|
    decreases |d|
  {
    hide CarryDigits;
    if d == [] { CarryValue(carry); } else { TimesDecimals(d[1..], (d[0] * 16 + carry) / 10); }
  }

  /** A leading digit that is not zero carries into a new leading digit that is not zero. */
  lemma {:induction false} TimesLeads(d: Digits, carry: nat)
    requires d != [] && (d[|d| - 1] != 0 || carry > 0) && (|d| > 1 ==> d[|d| - 1] != 0)
    ensures var t := TimesSixteen(d, carry); t != [] && t[|t| - 1] != 0
    decreases |d|
  {
    hide CarryDigits;
    var p := d[0] * 16 + carry;
    var rest := TimesSixteen(d[1..], p / 10);
    if |d| > 1 {
      TimesLeads(d[1..], p / 10);
    } else {
      CarryValue(p / 10);
      assert rest == CarryDigits(p / 10);
      NoCarry();
    }
  }

  lemma TimesCanonical(d: Digits, carry: nat)
    requires Canonical(d) && carry < 16
    ensures Canonical(TimesSixteen(d, carry))
  {
    hide TimesSixteen;
    TimesDecimals(d, carry);
    if d[|d| - 1] != 0 || carry > 0 {
      TimesLeads(d, carry);
    } else {
      ZeroStays(d);
    }
  }

  lemma NoCarry()
    ensures CarryDigits(0) == []
  {
  }

  lemma ZeroStays(d: Digits)
    requires |d| == 1 && d[0] == 0
    ensures TimesSixteen(d, 0) == [0]
  {
    NoCarry();
  }

  // ---- The numeral ------------------------------------------------------------------------------

  /** The digits printed from the most significant on. */
  function Text(d: Digits): (r: Bytes)
    requires Decimals(d)
  {
    if d == [] then [] else Text(d[1..]) + [48 + d[0]]
  }

  lemma {:induction false} ValueIsLarge(d: Digits)
    requires d != [] && d[|d| - 1] != 0
    ensures Value(d) > 0
  {
    if |d| > 1 { ValueIsLarge(d[1..]); }
  }

  /** Canonical digits print as the decimal numeral of their value, which std::to_string would give. */
  lemma {:induction false} TextIsNumeral(d: Digits)
    requires Canonical(d)
    ensures Text(d) == Dec(Value(d))
    decreases |d|
  {
    if |d| == 1 {
      assert d[1..] == [];
      assert Text(d) == [] + [48 + d[0]];
    } else {
      TextIsNumeral(d[1..]);
      ValueIsLarge(d[1..]);
      assert Value(d) / 10 == Value(d[1..]) && Value(d) % 10 == d[0];
    }
  }

  // ---- The code ---------------------------------------------------------------------------------

  /** One hexadecimal digit: the in-place pass and the carry loop. No intermediate product exceeds 159. */
  method Shift(digits: Digits, v: nat) returns (out: Digits)
    requires Decimals(digits) && v < 16
    ensures out == TimesSixteen(digits, v)
  {
    hide CarryDigits;
    out := digits;
    var carry := v;
    var i := 0;
    assert digits[0..] == digits;
    while i < |out|
      invariant 0 <= i <= |out| == |digits| && carry < 16
      invariant out[i..] == digits[i..]
      invariant out[..i] + TimesSixteen(digits[i..], carry) == TimesSixteen(digits, v)
    {
      assert out[i] == out[i..][0] == digits[i] && digits[i..][1..] == digits[i + 1..];
      var product := out[i] * 16 + carry;
      assert product <= 159;
      ghost var before := out;
      out := out[i := product % 10];
      carry := product / 10;
      assert out[..i + 1] == before[..i] + [product % 10];
      assert out[i + 1..] == before[i..][1..];
      i := i + 1;
    }
    assert out[..i] == out && digits[i..] == [];
    out := PushCarry(out, carry);
  }

  method PushCarry(digits: Digits, start: nat) returns (out: Digits)
    ensures out == digits + CarryDigits(start)
  {
    out := digits;
    var carry := start;
    while carry > 0
      invariant out + CarryDigits(carry) == digits + CarryDigits(start)
    {
      out := out + [carry % 10];
      carry := carry / 10;
    }
  }

  method PrintDigits(digits: Digits) returns (out: Bytes)
    requires Decimals(digits)
    ensures out == Text(digits)
  {
    out := [];
    var i := |digits|;
    while i > 0
      invariant 0 <= i <= |digits| && out == Text(digits[i..])
    {
      i := i - 1;
      assert digits[i..][1..] == digits[i + 1..];
      out := out + [48 + digits[i]];
    }
    assert digits[0..] == digits;
  }

  /** The canonical numeral of exactly the number that the hexadecimal digits denote. */
  method HexToDecimal(hex: Bytes) returns (out: Bytes)
    ensures out == Dec(HexNumber(hex))
  {
    hide TimesSixteen, Dec, HexValue;
    var digits: Digits := [0];
    assert Value(digits) == 0;
    var n := 0;
    assert hex[..0] == [];
    while n < |hex|
      invariant 0 <= n <= |hex| && Canonical(digits) && Value(digits) == HexNumber(hex[..n])
    {
      assert hex[..n + 1][..n] == hex[..n] && hex[..n + 1][n] == hex[n];
      var v := HexValue(hex[n]);
      if v.Some? {
        DigitIsSmall(hex[n]);
        TimesCanonical(digits, v.value);
        TimesValue(digits, v.value);
        digits := Shift(digits, v.value);
      }
      n := n + 1;
    }
    assert hex[..|hex|] == hex;
    TextIsNumeral(digits);
    out := PrintDigits(digits);
    assert out != [];    // the vector always has a digit, so the text needs no default
  }

  lemma DigitIsSmall(c: Byte)
    ensures HexValue(c).Some? ==> HexValue(c).value < 16
  {
  }

  // ---- The number -------------------------------------------------------------------------------

  function Pow16(k: nat): (n: nat) { if k == 0 then 1 else 16 * Pow16(k - 1) }

  predicate AllHex(hex: Bytes) { forall i :: 0 <= i < |hex| ==> HexValue(hex[i]).Some? }

  /** The leading digit counts for sixteen to the number of digits after it. */
  lemma {:induction false} LeadingHexDigit(hex: Bytes)
    requires hex != [] && AllHex(hex)
    ensures HexNumber(hex) == HexValue(hex[0]).value * Pow16(|hex| - 1) + HexNumber(hex[1..])
    decreases |hex|
  {
    hide HexValue;
    var n := |hex| - 1;
    if n == 0 {
      assert HexNumber(hex[..0]) == 0 && HexNumber(hex[1..]) == 0;
    } else {
      var init := hex[..n];
      LeadingHexDigit(init);
      assert hex[1..][..n - 1] == init[1..];
    }
  }

  /** A character that is no digit is passed over, wherever it stands. */
  lemma {:induction false} OthersPassedOver(a: Bytes, c: Byte, b: Bytes)
    requires HexValue(c).None?
    ensures HexNumber(a + [c] + b) == HexNumber(a + b)
    decreases |b|
  {
    hide HexValue;
    var s, t := a + [c] + b, a + b;
    if b == [] {
      assert s[..|s| - 1] == a && t == a;
    } else {
      var init := b[..|b| - 1];
      OthersPassedOver(a, c, init);
      assert s[..|s| - 1] == a + [c] + init && t[..|t| - 1] == a + init;
    }
  }
}
