/** Decimal numerals: std::to_string, and the digit loops that read them back. */
module Decimal {
  import opened ByteStrings

  function Dec(n: nat): (r: Bytes)
    ensures |r| >= 1
  {
    if n < 10 then [48 + n] else Dec(n / 10) + [48 + n % 10]
  }

  predicate AllDigits(s: Bytes) { forall i :: 0 <= i < |s| ==> IsDigit(s[i]) }

  function DecValue(s: Bytes): (n: nat)
    requires AllDigits(s)
  {
    if |s| == 0 then 0 else DecValue(s[..|s| - 1]) * 10 + (s[|s| - 1] - 48)
  }

  lemma {:induction false} DecRoundTrip(n: nat)
    ensures AllDigits(Dec(n)) && DecValue(Dec(n)) == n
  {
    if n < 10 {
      assert Dec(n)[..0] == [];
    } else {
      DecRoundTrip(n / 10);
      var d := Dec(n);
      assert d[..|d| - 1] == Dec(n / 10);
    }
  }

  lemma DecInjective(m: nat, n: nat)
    requires Dec(m) == Dec(n)
    ensures m == n
  {
    DecRoundTrip(m);
    DecRoundTrip(n);
  }

  function Pow10(k: nat): (r: nat)
    ensures r >= 1
  {
    if k == 0 then 1 else 10 * Pow10(k - 1)
  }

  /** A numeral has at most k >= 1 digits exactly when its number is below 10^k. */
  lemma {:induction false} DecLength(n: nat, k: nat)
    requires k >= 1
    ensures |Dec(n)| <= k <==> n < Pow10(k)
  {
    if n < 10 {
      assert Pow10(k) == 10 * Pow10(k - 1);
    } else if k == 1 {
      assert Pow10(1) == 10 * Pow10(0);
    } else {
      DecLength(n / 10, k - 1);
    }
  }

  /** printf's %0<width>: zero-padded on the left, never truncated. */
  function Padded(n: nat, width: nat): (r: Bytes)
    ensures |r| >= width && |r| >= 1
  {
    var d := Dec(n);
    if |d| >= width then d else Fill(width - |d|, 48) + d
  }

  lemma {:induction false} LeadingZeros(k: nat, s: Bytes)
    requires AllDigits(s)
    ensures AllDigits(Fill(k, 48) + s) && DecValue(Fill(k, 48) + s) == DecValue(s)
    decreases |s|, k
  {
    var z := Fill(k, 48) + s;
    if |s| > 0 {
      LeadingZeros(k, s[..|s| - 1]);
      assert z[..|z| - 1] == Fill(k, 48) + s[..|s| - 1];
    } else if k > 0 {
      LeadingZeros(k - 1, s);
      assert z[..|z| - 1] == Fill(k - 1, 48) + s;
    }
  }

  lemma PaddedRoundTrip(n: nat, width: nat)
    ensures AllDigits(Padded(n, width)) && DecValue(Padded(n, width)) == n
  {
    DecRoundTrip(n);
    if |Dec(n)| < width { LeadingZeros(width - |Dec(n)|, Dec(n)); }
  }

  /** The end of the maximal run of digits that starts at `pos`. */
  function DigitsEnd(s: Bytes, pos: nat): (e: nat)
    requires pos <= |s|
    ensures pos <= e <= |s| && AllDigits(s[pos..e])
    ensures forall i :: pos <= i < e ==> IsDigit(s[i])
    ensures e < |s| ==> !IsDigit(s[e])
    decreases |s| - pos
  {
    if pos < |s| && IsDigit(s[pos]) then
      var e := DigitsEnd(s, pos + 1);
      assert s[pos..e] == [s[pos]] + s[pos + 1..e];
      e
    else pos
  }

  lemma DigitsEndAt(s: Bytes, pos: nat, d: Bytes)
    requires At(s, pos, d) && AllDigits(d)
    requires pos + |d| == |s| || !IsDigit(s[pos + |d|])
    ensures DigitsEnd(s, pos) == pos + |d| && s[pos..pos + |d|] == d
  {
    forall i | 0 <= i < |d| ensures s[pos + i] == d[i] { AtIndex(s, pos, d, i); }
  }

  /** A number read at an offset, and the offset after it. */
  datatype Number = Number(value: nat, next: nat)

  function ReadNumber(s: Bytes, pos: nat): (r: Option<Number>)
    requires pos <= |s|
    ensures r.Some? ==> pos < r.value.next <= |s|
  {
    var e := DigitsEnd(s, pos);
    if e == pos then None else Some(Number(DecValue(s[pos..e]), e))
  }

  lemma ReadNumberAt(s: Bytes, pos: nat, d: Bytes)
    requires At(s, pos, d) && AllDigits(d) && d != []
    requires pos + |d| < |s| && !IsDigit(s[pos + |d|])
    ensures ReadNumber(s, pos) == Some(Number(DecValue(d), pos + |d|))
  {
    hide At, AllDigits, DecValue, DigitsEnd;
    DigitsEndAt(s, pos, d);
  }

  lemma ReadDec(s: Bytes, pos: nat, n: nat)
    requires At(s, pos, Dec(n))
    requires pos + |Dec(n)| < |s| && !IsDigit(s[pos + |Dec(n)|])
    ensures ReadNumber(s, pos) == Some(Number(n, pos + |Dec(n)|))
  {
    hide ReadNumber;
    DecRoundTrip(n);
    ReadNumberAt(s, pos, Dec(n));
  }
}
