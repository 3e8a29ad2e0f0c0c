/**
 Alias normalisation (src/lib/core/KeyParsers.cpp:334-372): lower case for Latin and the Cyrillic letters of Ukrainian
 and Russian, on UTF-16 units when the alias is UTF-8, and on octets otherwise.
 */
module JksAlias {
  import opened ByteStrings
  import opened Utf

  function LowerUnit(u: Unit): (r: Unit) {
    if 0x41 <= u <= 0x5A || 0x410 <= u <= 0x42F then u + 0x20
    else if u == 0x401 || u == 0x404 || u == 0x406 || u == 0x407 then u + 0x50
    else if u == 0x490 then 0x491
    else u
  }

  function LowerOctet(b: Byte): (r: Byte) { if 0x41 <= b <= 0x5A then b + 0x20 else b }

  function LowerUnits(s: seq<Unit>): (r: seq<Unit>)
    ensures |r| == |s|
  {
    seq(|s|, i requires 0 <= i < |s| => LowerUnit(s[i]))
  }

  function LowerOctets(s: Bytes): (r: Bytes)
    ensures |r| == |s|
  {
    seq(|s|, i requires 0 <= i < |s| => LowerOctet(s[i]))
  }

  function Normalize(alias: Bytes): (r: Bytes) {
    match Decode(alias)
    case None => LowerOctets(alias)
    case Some(units) =>
      match Encode(LowerUnits(units)) case None => LowerOctets(alias) case Some(t) => t
  }

  method NormalizeJksAlias(alias: Bytes) returns (out: Bytes)
    ensures out == Normalize(alias)
  {
    hide Decode, Encode, LowerUnit;
    var ok, units := DecodeUtf8ToUtf16(alias);
    if ok {
      var i := 0;
      ghost var before := units;
      while i < |units|
        invariant 0 <= i <= |units| == |before|
        invariant units == LowerUnits(before)[..i] + before[i..]
      {
        units := units[i := LowerUnit(units[i])];
        i := i + 1;
      }
      assert units == LowerUnits(before);
      ok, out := EncodeUtf16ToUtf8(units);
      if ok { return; }
    }
    out := alias;
    var i := 0;
    while i < |out|
      invariant 0 <= i <= |out| == |alias|
      invariant out == LowerOctets(alias)[..i] + alias[i..]
    {
      out := out[i := LowerOctet(out[i])];
      i := i + 1;
    }
    assert out == LowerOctets(alias);
  }

  /** The code does not take an alias for "no alias": only the empty alias normalises to nothing. */
  lemma NormalizeKeepsSomething(alias: Bytes)
    ensures Normalize(alias) == [] <==> alias == []
  {
    hide LowerUnit, LowerOctet, Decode, Encode;
    var units := Decode(alias);
    if units.Some? {
      DecodeKeepsSomething(alias);
      DecodeThenEncode(alias);
      LowerStaysPaired(units.value);
      EncodeKeepsSomething(LowerUnits(units.value));
    }
  }

  lemma DecodeKeepsSomething(s: Bytes)
    requires Decode(s).Some?
    ensures Decode(s).value == [] <==> s == []
  {
    hide ReadUtf8;
  }

  lemma EncodeKeepsSomething(s: seq<Unit>)
    requires Encode(s).Some?
    ensures Encode(s).value == [] <==> s == []
  {
    hide ReadUtf16;
  }

  /** Lowering moves no unit into or out of the surrogates, so what was decoded can be encoded again. */
  lemma {:induction false} LowerStaysPaired(s: seq<Unit>)
    requires Encode(s).Some?
    ensures Encode(LowerUnits(s)).Some?
    decreases |s|
  {
    if s != [] {
      var c := ReadUtf16(s).value;
      var t := LowerUnits(s);
      assert LowerUnits(s[c.size..]) == t[c.size..];
      LowerStaysPaired(s[c.size..]);
      LowerReads(s);
    }
  }

  lemma LowerReads(s: seq<Unit>)
    requires s != [] && ReadUtf16(s).Some?
    ensures ReadUtf16(LowerUnits(s)).Some? && ReadUtf16(LowerUnits(s)).value.size == ReadUtf16(s).value.size
    ensures Utf8(ReadUtf16(LowerUnits(s)).value.cp).Some?
  {
    hide Utf8;
    Utf8IsTotal(ReadUtf16(LowerUnits(s)).value.cp);
  }

  lemma Utf8IsTotal(cp: nat)
    requires IsScalar(cp)
    ensures Utf8(cp).Some?
  {
  }

  /** On UTF-8 aliases normalising is lowering every unit, and a second time changes nothing. */
  lemma NormalizeIsLower(alias: Bytes)
    requires Decode(alias).Some?
    ensures Decode(Normalize(alias)) == Some(LowerUnits(Decode(alias).value))
    ensures Normalize(Normalize(alias)) == Normalize(alias)
  {
    hide Decode, Encode, LowerUnit;
    var units := Decode(alias).value;
    DecodeThenEncode(alias);
    LowerStaysPaired(units);
    EncodeThenDecode(LowerUnits(units));
    LowerTwice(units);
  }

  lemma LowerTwice(s: seq<Unit>)
    ensures LowerUnits(LowerUnits(s)) == LowerUnits(s)
  {
  }

  // ---- Which aliases are the same -----------------------------------------------------------------

  /** An upper-case letter of the Latin, Ukrainian or Russian alphabet and its lower-case form. */
  predicate CasePair(upper: int, lower: int) {
    || (0x41 <= upper <= 0x5A && lower - 0x61 == upper - 0x41)
    || (0x410 <= upper <= 0x42F && lower - 0x430 == upper - 0x410)
    || (upper == 0x401 && lower == 0x451) || (upper == 0x404 && lower == 0x454) || (upper == 0x406 && lower == 0x456)
    || (upper == 0x407 && lower == 0x457) || (upper == 0x490 && lower == 0x491)
  }

  predicate SameLetter(u: int, v: int) { u == v || CasePair(u, v) || CasePair(v, u) }

  predicate SameLetters(a: seq<Unit>, b: seq<Unit>) {
    |a| == |b| && forall i :: 0 <= i < |a| ==> SameLetter(a[i], b[i])
  }

  lemma LowerIsSame(a: seq<Unit>, b: seq<Unit>)
    ensures LowerUnits(a) == LowerUnits(b) <==> SameLetters(a, b)
  {
    hide LowerUnit, SameLetter;
    if LowerUnits(a) == LowerUnits(b) {
      forall i | 0 <= i < |a| ensures SameLetter(a[i], b[i]) {
        assert LowerUnit(a[i]) == LowerUnits(a)[i] == LowerUnits(b)[i] == LowerUnit(b[i]);
        LetterIsSame(a[i], b[i]);
      }
    }
    if SameLetters(a, b) {
      forall i | 0 <= i < |a| ensures LowerUnits(a)[i] == LowerUnits(b)[i] { LetterIsSame(a[i], b[i]); }
    }
  }

  lemma LetterIsSame(u: Unit, v: Unit)
    ensures LowerUnit(u) == LowerUnit(v) <==> SameLetter(u, v)
  {
  }

  /** Two UTF-8 aliases are taken for the same exactly when they differ in the case of letters only. */
  lemma SameAliasIff(a: Bytes, b: Bytes)
    requires Decode(a).Some? && Decode(b).Some?
    ensures Normalize(a) == Normalize(b) <==> SameLetters(Decode(a).value, Decode(b).value)
  {
    hide Decode, Encode, SameLetters, LowerUnits, Normalize;
    NormalizeIsLower(a);
    NormalizeIsLower(b);
    LowerIsSame(Decode(a).value, Decode(b).value);
    if SameLetters(Decode(a).value, Decode(b).value) {
      NormalizeIsEncoded(a);
      NormalizeIsEncoded(b);
    }
  }

  lemma NormalizeIsEncoded(alias: Bytes)
    requires Decode(alias).Some?
    ensures Encode(LowerUnits(Decode(alias).value)) == Some(Normalize(alias))
  {
    hide Decode, Encode, LowerUnit;
    DecodeThenEncode(alias);
    LowerStaysPaired(Decode(alias).value);
  }

  predicate SameOctet(u: int, v: int) {
    u == v || (0x41 <= u <= 0x5A && v == u + 0x20) || (0x41 <= v <= 0x5A && u == v + 0x20)
  }

  /** Of two aliases that are not UTF-8 only the Latin letters may differ in case. */
  lemma SameOctetsIff(a: Bytes, b: Bytes)
    requires Decode(a).None? && Decode(b).None?
    ensures Normalize(a) == Normalize(b) <==> |a| == |b| && forall i :: 0 <= i < |a| ==> SameOctet(a[i], b[i])
  {
    hide Decode, Encode;
    if |a| == |b| {
      forall i | 0 <= i < |a| ensures LowerOctets(a)[i] == LowerOctets(b)[i] <==> SameOctet(a[i], b[i]) {}
    }
  }
}
