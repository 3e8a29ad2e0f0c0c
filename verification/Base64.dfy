/**
 Base64 (src/lib/util/Base64.cpp): the group loops, and the proof that decoding an encoded text, with white space
 inserted anywhere, gives the octets back; section 4 of RFC 4648. The decoder takes more texts than the encoder makes,
 and exactly which ones is stated too.
 */
module Base64 {
  import opened ByteStrings
  import opened Utf

  const PAD: Byte := 0x3D

  // ---- The alphabet -----------------------------------------------------------------------------

  function Letter(d: nat): (c: Byte)
    requires d < 64
  {
    if d < 26 then 0x41 + d
    else if d < 52 then 0x61 + (d - 26)
    else if d < 62 then 0x30 + (d - 52)
    else if d == 62 then 0x2B else 0x2F
  }

  /** DecodeChar; 255 stands for a foreign character. */
  function Digit(c: Byte): (d: nat)
    ensures d < 64 || d == 255
  {
    if 0x41 <= c <= 0x5A then c - 0x41
    else if 0x61 <= c <= 0x7A then c - 0x61 + 26
    else if 0x30 <= c <= 0x39 then c - 0x30 + 52
    else if c == 0x2B then 62
    else if c == 0x2F then 63
    else 255
  }

  lemma DigitOfLetter(d: nat)
    requires d < 64
    ensures Digit(Letter(d)) == d && Letter(d) != PAD && !IsSpace(Letter(d))
  {
  }

  lemma LetterOfDigit(c: Byte)
    requires Digit(c) != 255
    ensures Letter(Digit(c)) == c && c != PAD
  {
  }

  // ---- Groups -----------------------------------------------------------------------------------

  function Triple(b0: nat, b1: nat, b2: nat): (t: nat) { b0 * 0x1_0000 + b1 * 0x100 + b2 }

  /** The k-th of the four six-bit digits. */
  function Sextet(t: nat, k: nat): (d: nat)
    requires k < 4
    ensures d < 64
  {
    if k == 0 then t / 0x4_0000 % 64 else if k == 1 then t / 0x1000 % 64 else if k == 2 then t / 64 % 64 else t % 64
  }

  function GroupTriple(b: Bytes): (t: nat)
    requires 1 <= |b| <= 3
  {
    Triple(b[0], if |b| > 1 then b[1] else 0, if |b| > 2 then b[2] else 0)
  }

  /** The four characters for up to three octets. */
  function Group(b: Bytes): (r: Bytes)
    requires 1 <= |b| <= 3
    ensures |r| == 4
  {
    var t := GroupTriple(b);
    [Letter(Sextet(t, 0)), Letter(Sextet(t, 1)),
     if |b| > 1 then Letter(Sextet(t, 2)) else PAD, if |b| > 2 then Letter(Sextet(t, 3)) else PAD]
  }

  function DigitOrZero(c: Byte): (d: nat) { if c == PAD then 0 else Digit(c) }

  function Quad(g: Bytes): (t: nat)
    requires |g| == 4
  {
    Digit(g[0]) * 0x4_0000 + Digit(g[1]) * 0x1000 + DigitOrZero(g[2]) * 0x40 + DigitOrZero(g[3])
  }

  predicate GroupOk(g: Bytes)
    requires |g| == 4
  {
    Digit(g[0]) != 255 && Digit(g[1]) != 255 && DigitOrZero(g[2]) != 255 && DigitOrZero(g[3]) != 255
  }

  /** The octets of one group: a padding character drops an octet, wherever it stands. */
  function GroupOctets(g: Bytes): (r: Bytes)
    requires |g| == 4
    ensures 1 <= |r| <= 3
  {
    var t := Quad(g);
    [t / 0x1_0000 % 256] + (if g[2] != PAD then [t / 0x100 % 256] else []) + (if g[3] != PAD then [t % 256] else [])
  }

  // ---- Texts ------------------------------------------------------------------------------------

  /** How many octets the next group takes. */
  function Cut(n: nat): (k: nat) { if n < 3 then n else 3 }

  function Encoded(s: Bytes): (r: Bytes)
    decreases |s|
  {
    if s == [] then [] else Group(s[..Cut(|s|)]) + Encoded(s[Cut(|s|)..])
  }

  function Strip(s: Bytes): (r: Bytes) {
    if s == [] then [] else if IsSpace(s[0]) then Strip(s[1..]) else [s[0]] + Strip(s[1..])
  }

  function DecodeGroups(s: Bytes): (r: Option<Bytes>)
    requires |s| % 4 == 0
    decreases |s|
  {
    if s == [] then Some([])
    else if !GroupOk(s[..4]) then None
    else Prepend(GroupOctets(s[..4]), DecodeGroups(s[4..]))
  }

  function Decoded(s: Bytes): (r: Option<Bytes>) {
    if |Strip(s)| % 4 != 0 then None else DecodeGroups(Strip(s))
  }

  method Base64Encode(input: Bytes) returns (out: Bytes)
    ensures out == Encoded(input)
  {
    hide Group, Encoded;
    out := [];
    var i := 0;
    assert input[0..] == input;
    while i < |input|
      invariant 0 <= i <= |input| && out + Encoded(input[i..]) == Encoded(input)
    {
      var end := i + Cut(|input| - i);
      EncodedStep(input, i);
      Regroup(out, Group(input[i..end]), Encoded(input[end..]));
      out := out + Group(input[i..end]);
      i := end;
    }
    NothingEncoded(input);
    assert out + [] == out;
  }

  lemma NothingEncoded(s: Bytes)
    ensures Encoded(s[|s|..]) == []
  {
  }

  lemma EncodedStep(s: Bytes, i: nat)
    requires i < |s|
    ensures var end := i + Cut(|s| - i); Encoded(s[i..]) == Group(s[i..end]) + Encoded(s[end..])
  {
    hide Group;
    var t, end := s[i..], i + Cut(|s| - i);
    assert t[..Cut(|t|)] == s[i..end] && t[Cut(|t|)..] == s[end..];
  }

  method StripSpaces(input: Bytes) returns (out: Bytes)
    ensures out == Strip(input)
  {
    out := [];
    var i := 0;
    assert input[0..] == input;
    while i < |input|
      invariant 0 <= i <= |input| && out + Strip(input[i..]) == Strip(input)
    {
      assert input[i..][1..] == input[i + 1..];
      if !IsSpace(input[i]) { out := out + [input[i]]; }
      i := i + 1;
    }
    assert input[|input|..] == [] && out + [] == out;
  }

  method Base64Decode(input: Bytes) returns (ok: bool, out: Bytes)
    ensures ok <==> Decoded(input).Some?
    ensures ok ==> Decoded(input) == Some(out)
  {
    hide Strip, GroupOctets, GroupOk, DecodeGroups;
    ok, out := false, [];
    var s := StripSpaces(input);
    if |s| % 4 != 0 { return; }
    var i := 0;
    PrependNothing(s);
    while i < |s|
      invariant 0 <= i <= |s| && i % 4 == 0 && Prepend(out, DecodeGroups(s[i..])) == DecodeGroups(s)
    {
      var g := s[i..i + 4];
      DecodeTurn(s, i);
      if !GroupOk(g) { return; }
      PrependTwice(out, GroupOctets(g), DecodeGroups(s[i + 4..]));
      out := out + GroupOctets(g);
      i := i + 4;
    }
    ok := true;
    NoGroups(s);
    assert out + [] == out;
  }

  lemma DecodeTurn(s: Bytes, i: nat)
    requires |s| % 4 == 0 && i % 4 == 0 && i < |s|
    ensures var g := s[i..i + 4];
      DecodeGroups(s[i..]) == if GroupOk(g) then Prepend(GroupOctets(g), DecodeGroups(s[i + 4..])) else None
  {
    hide GroupOctets, GroupOk;
    assert s[i..][..4] == s[i..i + 4] && s[i..][4..] == s[i + 4..];
  }

  lemma NoGroups(s: Bytes)
    ensures DecodeGroups(s[|s|..]) == Some([])
  {
  }

  // ---- Decoding what was encoded ----------------------------------------------------------------

  lemma SextetsOf(t: nat)
    requires t < 0x100_0000
    ensures Sextet(t, 0) * 0x4_0000 + Sextet(t, 1) * 0x1000 + Sextet(t, 2) * 0x40 + Sextet(t, 3) == t
  {
    var a := t / 64;
    var b := a / 64;
    assert t / 0x1000 == b && t / 0x4_0000 == b / 64;
  }

  lemma SmallByte(n: nat)
    requires n < 256
    ensures n % 256 == n
  {
  }

  lemma Split256(q: nat, r: nat)
    requires r < 256
    ensures (256 * q + r) / 256 == q && (256 * q + r) % 256 == r
  {
  }

  lemma OctetsOf(b0: Byte, b1: Byte, b2: Byte)
    ensures Triple(b0, b1, b2) < 0x100_0000
    ensures var t := Triple(b0, b1, b2); t / 0x1_0000 % 256 == b0 && t / 0x100 % 256 == b1 && t % 256 == b2
  {
    var t, high := Triple(b0, b1, b2), 256 * b0 + b1;
    Split256(high, b2);
    Split256(b0, b1);
    SmallByte(b0);
    assert t == 256 * high + b2;
    assert t / 0x1_0000 == t / 256 / 256;
  }

  /** With fewer than three octets the padded digits are zero anyway. */
  lemma ShortGroup(b0: Byte, b1: Byte)
    ensures Sextet(Triple(b0, b1, 0), 3) == 0 && Sextet(Triple(b0, 0, 0), 2) == 0
  {
    assert Triple(b0, b1, 0) == 64 * (b0 * 0x400 + b1 * 4);
    assert Triple(b0, 0, 0) / 64 == 64 * (b0 * 16);
  }

  lemma QuadOfGroup(b: Bytes)
    requires 1 <= |b| <= 3
    ensures GroupOk(Group(b)) && Quad(Group(b)) == GroupTriple(b)
    ensures Group(b)[2] == PAD <==> |b| == 1
    ensures Group(b)[3] == PAD <==> |b| <= 2
  {
    hide Letter, Digit, Sextet, Triple;
    var t := GroupTriple(b);
    DigitOfLetter(Sextet(t, 0));
    DigitOfLetter(Sextet(t, 1));
    DigitOfLetter(Sextet(t, 2));
    DigitOfLetter(Sextet(t, 3));
    ShortGroup(b[0], if |b| > 1 then b[1] else 0);
    OctetsOf(b[0], if |b| > 1 then b[1] else 0, if |b| > 2 then b[2] else 0);
    SextetsOf(t);
  }

  lemma GroupReadsBack(b: Bytes)
    requires 1 <= |b| <= 3
    ensures GroupOk(Group(b)) && GroupOctets(Group(b)) == b
  {
    hide Group, Quad, GroupOk, Triple;
    QuadOfGroup(b);
    OctetsOf(b[0], if |b| > 1 then b[1] else 0, if |b| > 2 then b[2] else 0);
  }

  lemma {:induction false} EncodedReadsBack(s: Bytes)
    ensures |Encoded(s)| % 4 == 0 && DecodeGroups(Encoded(s)) == Some(s)
    decreases |s|
  {
    hide Group, GroupOctets, GroupOk;
    if s != [] {
      var end := Cut(|s|);
      var g, rest := Group(s[..end]), Encoded(s[end..]);
      var e := Encoded(s);
      assert e == g + rest && e[..4] == g && e[4..] == rest;
      GroupReadsBack(s[..end]);
      EncodedReadsBack(s[end..]);
      assert s == s[..end] + s[end..];
    }
  }

  /** White space may be inserted anywhere: what counts is the text without it. */
  lemma WrappedReadsBack(text: Bytes, s: Bytes)
    requires Strip(text) == Encoded(s)
    ensures Decoded(text) == Some(s)
  {
    hide DecodeGroups;
    EncodedReadsBack(s);
  }

  lemma GroupIsSolid(b: Bytes, i: nat)
    requires 1 <= |b| <= 3 && i < 4
    ensures !IsSpace(Group(b)[i])
  {
    hide Letter, Sextet, GroupTriple;
    var t := GroupTriple(b);
    DigitOfLetter(Sextet(t, 0));
    DigitOfLetter(Sextet(t, 1));
    DigitOfLetter(Sextet(t, 2));
    DigitOfLetter(Sextet(t, 3));
  }

  lemma {:induction false} EncodedIsSolid(s: Bytes, i: nat)
    requires i < |Encoded(s)|
    ensures !IsSpace(Encoded(s)[i])
    decreases |s|
  {
    hide Group, IsSpace;
    var end := Cut(|s|);
    if i < 4 {
      GroupIsSolid(s[..end], i);
    } else {
      EncodedIsSolid(s[end..], i - 4);
    }
  }

  lemma {:induction false} StripSolid(s: Bytes)
    requires forall i :: 0 <= i < |s| ==> !IsSpace(s[i])
    ensures Strip(s) == s
  {
    if s != [] {
      StripSolid(s[1..]);
      assert s == [s[0]] + s[1..];
    }
  }

  /** In particular the encoder's own output. */
  lemma RoundTrip(s: Bytes)
    ensures Decoded(Encoded(s)) == Some(s)
  {
    hide Encoded, Decoded, Strip, IsSpace;
    forall i | 0 <= i < |Encoded(s)| ensures !IsSpace(Encoded(s)[i]) { EncodedIsSolid(s, i); }
    StripSolid(Encoded(s));
    WrappedReadsBack(Encoded(s), s);
  }

  // ---- What else is accepted --------------------------------------------------------------------

  /** Padding is a suffix of the group, and the bits that it leaves unused are zero. */
  predicate GroupCanonical(g: Bytes)
    requires |g| == 4
  {
    && (g[2] == PAD ==> g[3] == PAD && Digit(g[1]) % 16 == 0)
    && (g[2] != PAD && g[3] == PAD ==> Digit(g[2]) % 4 == 0)
  }

  /** Only the last group is padded, and it is canonical. */
  predicate Canonical(s: Bytes)
    requires |s| % 4 == 0
    decreases |s|
  {
    s == [] || (if |s| == 4 then GroupCanonical(s) else s[2] != PAD && s[3] != PAD && Canonical(s[4..]))
  }

  lemma TripleOf(t: nat)
    requires t < 0x100_0000
    ensures Triple(t / 0x1_0000 % 256, t / 0x100 % 256, t % 256) == t
  {
    var a := t / 256;
    assert t == 256 * a + t % 256;
    assert t / 0x1_0000 == a / 256;
    assert a == 256 * (a / 256) + a % 256 && a / 256 < 256;
    SmallByte(a / 256);
  }

  lemma SextetsAre(d0: nat, d1: nat, d2: nat, d3: nat)
    requires d0 < 64 && d1 < 64 && d2 < 64 && d3 < 64
    ensures var t := d0 * 0x4_0000 + d1 * 0x1000 + d2 * 0x40 + d3;
      t < 0x100_0000 && Sextet(t, 0) == d0 && Sextet(t, 1) == d1 && Sextet(t, 2) == d2 && Sextet(t, 3) == d3
  {
    var t := d0 * 0x4_0000 + d1 * 0x1000 + d2 * 0x40 + d3;
    assert t / 64 == d0 * 0x1000 + d1 * 64 + d2;
    assert t / 0x1000 == t / 64 / 64 == d0 * 64 + d1;
    assert t / 0x4_0000 == t / 0x1000 / 64;
  }

  lemma UnusedBits(d0: nat, d1: nat, d2: nat)
    ensures d2 % 4 == 0 ==> (d0 * 0x4_0000 + d1 * 0x1000 + d2 * 0x40) % 256 == 0
    ensures d1 % 16 == 0 ==> (d0 * 0x4_0000 + d1 * 0x1000) % 256 == 0
    ensures d1 % 16 == 0 ==> (d0 * 0x4_0000 + d1 * 0x1000) / 0x100 % 256 == 0
  {
    if d2 % 4 == 0 {
      var q := d2 / 4;
      assert d2 == 4 * q;
      Split256(d0 * 0x400 + d1 * 16 + q, 0);
    }
    if d1 % 16 == 0 {
      var q := d1 / 16;
      assert d1 == 16 * q;
      Split256(256 * (d0 * 4 + q), 0);
      Split256(d0 * 4 + q, 0);
    }
  }

  lemma TripleOfGroup(g: Bytes)
    requires |g| == 4 && GroupOk(g) && GroupCanonical(g)
    ensures GroupTriple(GroupOctets(g)) == Quad(g)
    ensures |GroupOctets(g)| == if g[2] == PAD then 1 else if g[3] == PAD then 2 else 3
  {
    hide Digit, Triple, Sextet;
    SextetsAre(Digit(g[0]), Digit(g[1]), DigitOrZero(g[2]), DigitOrZero(g[3]));
    UnusedBits(Digit(g[0]), Digit(g[1]), DigitOrZero(g[2]));
    TripleOf(Quad(g));
  }

  lemma GroupWritesBack(g: Bytes)
    requires |g| == 4 && GroupOk(g) && GroupCanonical(g)
    ensures Group(GroupOctets(g)) == g
  {
    hide Digit, Letter, Sextet, GroupOctets, GroupTriple;
    TripleOfGroup(g);
    SextetsAre(Digit(g[0]), Digit(g[1]), DigitOrZero(g[2]), DigitOrZero(g[3]));
    LetterOfDigit(g[0]);
    LetterOfDigit(g[1]);
    if g[2] != PAD { LetterOfDigit(g[2]); }
    if g[3] != PAD { LetterOfDigit(g[3]); }
  }

  lemma FullIsCanonical(g: Bytes)
    requires |g| == 4 && g[2] != PAD && g[3] != PAD
    ensures GroupCanonical(g) && |GroupOctets(g)| == 3
  {
  }

  lemma {:induction false} CanonicalWritesBack(s: Bytes)
    requires |s| % 4 == 0 && DecodeGroups(s).Some? && Canonical(s)
    ensures Encoded(DecodeGroups(s).value) == s
    decreases |s|
  {
    hide Group, GroupOctets, GroupOk, GroupCanonical;
    if |s| == 4 {
      assert s[..4] == s && s[4..] == [];
      var o := GroupOctets(s);
      assert DecodeGroups(s) == Some(o + []);
      assert o + [] == o && o[..Cut(|o|)] == o && o[Cut(|o|)..] == [];
      GroupWritesBack(s);
    } else if s != [] {
      var g, o, rest := s[..4], GroupOctets(s[..4]), DecodeGroups(s[4..]).value;
      FullIsCanonical(g);
      GroupWritesBack(g);
      CanonicalWritesBack(s[4..]);
      assert (o + rest)[..3] == o && (o + rest)[3..] == rest;
      assert s == g + s[4..];
    }
  }

  lemma GroupIsCanonical(b: Bytes)
    requires 1 <= |b| <= 3
    ensures GroupCanonical(Group(b))
  {
    hide Letter, Digit, Sextet, Triple;
    var t := GroupTriple(b);
    DigitOfLetter(Sextet(t, 0));
    DigitOfLetter(Sextet(t, 1));
    DigitOfLetter(Sextet(t, 2));
    DigitOfLetter(Sextet(t, 3));
    ZeroBits(b[0], if |b| > 1 then b[1] else 0);
  }

  lemma ZeroBits(b0: Byte, b1: Byte)
    ensures Sextet(Triple(b0, b1, 0), 2) % 4 == 0 && Sextet(Triple(b0, 0, 0), 1) % 16 == 0
  {
    assert Triple(b0, b1, 0) / 64 == 4 * (b0 * 256 + b1);
    LowBits(b0 * 256 + b1);
    assert Triple(b0, 0, 0) / 0x1000 == 16 * b0;
    LowBits(b0);
  }

  lemma LowBits(y: nat)
    ensures 4 * y % 64 % 4 == 0 && 16 * y % 64 % 16 == 0
  {
    assert 4 * y == 64 * (y / 16) + 4 * (y % 16);
    assert 16 * y == 64 * (y / 4) + 16 * (y % 4);
  }

  lemma {:induction false} EncodedIsCanonical(s: Bytes)
    ensures |Encoded(s)| % 4 == 0 && Canonical(Encoded(s))
    decreases |s|
  {
    hide Group, GroupCanonical, Canonical;
    if s == [] {
      NothingIsCanonical();
    } else {
      var g, rest := Group(s[..Cut(|s|)]), Encoded(s[Cut(|s|)..]);
      EncodedIsCanonical(s[Cut(|s|)..]);
      GroupIsCanonical(s[..Cut(|s|)]);
      if |s| > 3 { QuadOfGroup(s[..3]); }
      hide Encoded;
      CanonicalCons(g, rest);
    }
  }

  lemma NothingIsCanonical()
    ensures Canonical([])
  {
  }

  lemma CanonicalCons(g: Bytes, rest: Bytes)
    requires |g| == 4 && |rest| % 4 == 0
    requires if rest == [] then GroupCanonical(g) else g[2] != PAD && g[3] != PAD && Canonical(rest)
    ensures Canonical(g + rest)
  {
    hide GroupCanonical;
    assert rest == [] ==> g + rest == g;
    assert (g + rest)[4..] == rest;
  }

  /** The decoder inverts the encoder on exactly the texts that are canonical. */
  lemma DecodedIsCanonical(text: Bytes)
    requires Decoded(text).Some?
    ensures |Strip(text)| % 4 == 0
    ensures Encoded(Decoded(text).value) == Strip(text) <==> Canonical(Strip(text))
  {
    hide Encoded, DecodeGroups, Canonical, Strip;
    EncodedIsCanonical(Decoded(text).value);
    if Canonical(Strip(text)) { CanonicalWritesBack(Strip(text)); }
  }

  /** Texts that are not canonical are accepted as well: unused bits that are set are dropped. */
  lemma LooseTextAccepted()
    ensures Decoded([0x51, 0x52, PAD, PAD]) == Some([0x41]) && Encoded([0x41]) == [0x51, 0x51, PAD, PAD]
  {
    var s: Bytes := [0x51, 0x52, PAD, PAD];
    forall i | 0 <= i < 4 ensures !IsSpace(s[i]) {}
    StripSolid(s);
    assert s[..4] == s && s[4..] == [];
    var a: Bytes := [0x41];
    assert GroupOctets(s) == a;
    assert a + [] == a;
    assert DecodeGroups(s) == Prepend(a, Some([]));
    assert a[..1] == a && a[1..] == [];
    assert GroupTriple(a) == 0x41_0000;
    assert Group(a) == [0x51, 0x51, PAD, PAD];
    assert Encoded(a) == Group(a) + Encoded([]) == Group(a);
  }
}
