/**
 JSON numbers: the numerals of section 6 of RFC 8259 as data, and the proof that SkipJsonNumberToken accepts exactly
 them. The scanner is greedy, so a numeral is only accepted where the octet after it could not prolong it.
 */
module JsonNumbers {
  import opened ByteStrings
  import opened Decimal
  import opened JsonScanner

  datatype Numeral = Numeral(sign: Bytes, whole: Bytes, fraction: Bytes, exponent: Bytes)

  predicate SomeDigits(d: Bytes) { d != [] && AllDigits(d) }

  predicate SignOk(s: Bytes) { s == [] || s == [0x2D] }

  predicate WholeOk(w: Bytes) { w == [0x30] || (SomeDigits(w) && w[0] != 0x30) }

  predicate FractionOk(f: Bytes) { f == [] || (f[0] == 0x2E && SomeDigits(f[1..])) }

  predicate ExponentOk(e: Bytes) {
    || e == []
    || (IsMark(e[0]) && SomeDigits(e[1..]))
    || (|e| >= 2 && IsMark(e[0]) && IsSign(e[1]) && SomeDigits(e[2..]))
  }

  predicate IsMark(c: Byte) { c == 0x65 || c == 0x45 }

  predicate IsSign(c: Byte) { c == 0x2B || c == 0x2D }

  predicate NumeralOk(n: Numeral) {
    SignOk(n.sign) && WholeOk(n.whole) && FractionOk(n.fraction) && ExponentOk(n.exponent)
  }

  function NumeralText(n: Numeral): (r: Bytes) { n.sign + n.whole + n.fraction + n.exponent }

  predicate DigitAt(json: Bytes, e: nat) { e < |json| && IsDigit(json[e]) }

  predicate DotAt(json: Bytes, e: nat) { e < |json| && json[e] == 0x2E }

  predicate MarkAt(json: Bytes, e: nat) { e < |json| && IsMark(json[e]) }

  /** The octet at `e` does not prolong the numeral that ends there. */
  predicate Stops(n: Numeral, json: Bytes, e: nat) {
    && (n.exponent == [] ==> !MarkAt(json, e))
    && (n.exponent == [] && n.fraction == [] ==> !DotAt(json, e))
    && ((n.exponent == [] && n.fraction == [] && n.whole == [0x30]) || !DigitAt(json, e))
  }

  // ---- Digits -----------------------------------------------------------------------------------

  lemma DigitsAccept(json: Bytes, off: nat, d: Bytes)
    requires At(json, off, d) && SomeDigits(d) && !DigitAt(json, off + |d|)
    ensures Digits(json, off) == Some(off + |d|)
  {
    DigitsEndAt(json, off, d);
    AtIndex(json, off, d, 0);
  }

  lemma DigitsHere(json: Bytes, off: nat)
    requires Digits(json, off).Some?
    ensures var e := Digits(json, off).value; SomeDigits(json[off..e]) && !DigitAt(json, e) && IsDigit(json[off])
  {
  }

  // ---- The parts --------------------------------------------------------------------------------

  lemma WholeAccepts(json: Bytes, off: nat, w: Bytes)
    requires At(json, off, w) && WholeOk(w) && (w == [0x30] || !DigitAt(json, off + |w|))
    ensures IntEnd(json, off) == Some(off + |w|) && DigitAt(json, off)
  {
    AtIndex(json, off, w, 0);
    if w != [0x30] { DigitsAccept(json, off, w); }
  }

  lemma WholeHere(json: Bytes, off: nat)
    requires IntEnd(json, off).Some?
    ensures var e := IntEnd(json, off).value; WholeOk(json[off..e]) && (json[off..e] == [0x30] || !DigitAt(json, e))
  {
    if json[off] != 0x30 { DigitsHere(json, off); } else { assert json[off..off + 1] == [0x30]; }
  }

  lemma FractionAccepts(json: Bytes, off: nat, f: Bytes)
    requires At(json, off, f) && FractionOk(f) && off <= |json|
    requires f == [] ==> !DotAt(json, off)
    requires f != [] ==> !DigitAt(json, off + |f|)
    ensures FractionEnd(json, off) == Some(off + |f|)
  {
    if f != [] {
      assert f == [f[0]] + f[1..];
      AtCons(json, off, f[0], f[1..]);
      DigitsAccept(json, off + 1, f[1..]);
    }
  }

  lemma FractionHere(json: Bytes, off: nat)
    requires off <= |json| && FractionEnd(json, off).Some?
    ensures var f := json[off..FractionEnd(json, off).value];
      FractionOk(f) && (f == [] ==> !DotAt(json, off)) && (f != [] ==> !DigitAt(json, FractionEnd(json, off).value))
  {
    if DotAt(json, off) {
      DigitsHere(json, off + 1);
      var e := FractionEnd(json, off).value;
      assert json[off..e][1..] == json[off + 1..e];
    }
  }

  lemma ExponentAccepts(json: Bytes, off: nat, x: Bytes)
    requires At(json, off, x) && ExponentOk(x) && off <= |json|
    requires x == [] ==> !MarkAt(json, off)
    requires x != [] ==> !DigitAt(json, off + |x|)
    ensures ExponentEnd(json, off) == Some(off + |x|)
  {
    if x != [] {
      assert x == [x[0]] + x[1..];
      AtCons(json, off, x[0], x[1..]);
      if IsDigit(x[1]) {
        AtIndex(json, off, x, 1);
        DigitsAccept(json, off + 1, x[1..]);
      } else {
        assert x[1..] == [x[1]] + x[2..];
        AtCons(json, off + 1, x[1], x[2..]);
        DigitsAccept(json, off + 2, x[2..]);
      }
    }
  }

  lemma ExponentHere(json: Bytes, off: nat)
    requires off <= |json| && ExponentEnd(json, off).Some?
    ensures var x := json[off..ExponentEnd(json, off).value];
      ExponentOk(x) && (x == [] ==> !MarkAt(json, off)) && (x != [] ==> !DigitAt(json, ExponentEnd(json, off).value))
  {
    if MarkAt(json, off) {
      var signed := off + 1 < |json| && IsSign(json[off + 1]);
      var start := if signed then off + 2 else off + 1;
      DigitsHere(json, start);
      var e := ExponentEnd(json, off).value;
      assert json[off..e][start - off..] == json[start..e];
    }
  }

  // ---- The numeral ------------------------------------------------------------------------------

  lemma MiddleStops(json: Bytes, n: Numeral, p: nat, q: nat, e: nat)
    requires NumeralOk(n) && At(json, p, n.fraction) && q == p + |n.fraction|
    requires At(json, q, n.exponent) && e == q + |n.exponent| && Stops(n, json, e)
    ensures n.whole == [0x30] || !DigitAt(json, p)
    ensures n.fraction == [] ==> !DotAt(json, p)
    ensures n.fraction != [] ==> !DigitAt(json, q)
    ensures n.exponent == [] ==> !MarkAt(json, q)
    ensures n.exponent != [] ==> !DigitAt(json, e)
  {
    if n.exponent != [] { AtIndex(json, q, n.exponent, 0); }
    if n.fraction != [] { AtIndex(json, p, n.fraction, 0); }
  }

  /** Every numeral is accepted where nothing prolongs it. */
  lemma NumberAccepts(json: Bytes, off: nat, n: Numeral)
    requires NumeralOk(n) && At(json, off, NumeralText(n)) && Stops(n, json, off + |NumeralText(n)|)
    ensures off < |json| && (json[off] == 0x2D || IsDigit(json[off]))
    ensures NumberEnd(json, off) == Some(off + |NumeralText(n)|)
  {
    hide At, IntEnd, FractionEnd, ExponentEnd, WholeOk, FractionOk, ExponentOk;
    AtSplit4(json, off, n.sign, n.whole, n.fraction, n.exponent);
    var o := off + |n.sign|;
    var p := o + |n.whole|;
    var q := p + |n.fraction|;
    MiddleStops(json, n, p, q, q + |n.exponent|);
    hide Stops;
    WholeAccepts(json, o, n.whole);
    if n.sign != [] { AtIndex(json, off, n.sign, 0); }
    AtBounds(json, p, n.fraction);
    FractionAccepts(json, p, n.fraction);
    AtBounds(json, q, n.exponent);
    ExponentAccepts(json, q, n.exponent);
  }

  /** Nothing else is accepted, and the scanner stops where nothing prolongs the numeral. */
  lemma NumberParts(json: Bytes, off: nat) returns (n: Numeral)
    requires off < |json| && NumberEnd(json, off).Some?
    ensures NumeralOk(n) && At(json, off, NumeralText(n)) && Stops(n, json, off + |NumeralText(n)|)
    ensures NumberEnd(json, off) == Some(off + |NumeralText(n)|)
  {
    hide IntEnd, FractionEnd, ExponentEnd, WholeOk, FractionOk, ExponentOk;
    var o := if json[off] == 0x2D then off + 1 else off;
    var p := IntEnd(json, o).value;
    var q := FractionEnd(json, p).value;
    var e := ExponentEnd(json, q).value;
    WholeHere(json, o);
    FractionHere(json, p);
    ExponentHere(json, q);
    n := Numeral(json[off..o], json[o..p], json[p..q], json[q..e]);
    NumeralSlices(json, off, o, p, q, e);
  }

  lemma NumeralSlices(json: Bytes, off: nat, o: nat, p: nat, q: nat, e: nat)
    requires off <= o <= p <= q <= e <= |json|
    ensures json[off..o] + json[o..p] + json[p..q] + json[q..e] == json[off..e]
  {
  }
}
