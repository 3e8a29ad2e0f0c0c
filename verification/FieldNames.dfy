/** UniqueFieldName (src/lib/pades/PadesBuilder.cpp:157-164). */
module FieldNames {
  import opened ByteStrings
  import opened Decimal

  const DEFAULT_NAME: Bytes := Ascii("Signature1")

  function Candidate(base: Bytes, suffix: nat): (r: Bytes) { base + [0x2D] + Dec(suffix) }

  lemma CandidateInjective(base: Bytes, m: nat, n: nat)
    requires Candidate(base, m) == Candidate(base, n)
    ensures m == n
  {
    hide Dec;
    assert Candidate(base, m)[|base| + 1..] == Dec(m) && Candidate(base, n)[|base| + 1..] == Dec(n);
    DecInjective(m, n);
  }

  /** The base, a hyphen and the decimal digits of the suffix. */
  predicate IsSuffixed(base: Bytes, suffix: nat, name: Bytes) {
    && base < name && name[|base|] == 0x2D && |name| > |base| + 1
    && AllDigits(name[|base| + 1..]) && DecValue(name[|base| + 1..]) == suffix && name[|base| + 1] != 0x30
  }

  lemma CandidateReads(base: Bytes, suffix: nat)
    requires suffix > 0
    ensures IsSuffixed(base, suffix, Candidate(base, suffix))
  {
    hide Dec;
    DecRoundTrip(suffix);
    LeadingDigit(suffix);
    assert Candidate(base, suffix)[|base| + 1..] == Dec(suffix);
  }

  lemma {:induction false} LeadingDigit(n: nat)
    requires n > 0
    ensures Dec(n) != [] && Dec(n)[0] != 0x30
  {
    if n >= 10 { LeadingDigit(n / 10); }
  }

  /** The suffixed names with suffixes 2 .. n-1. */
  function Tried(base: Bytes, n: nat): (r: set<Bytes>)
    requires n >= 2
  {
    if n == 2 then {} else Tried(base, n - 1) + {Candidate(base, n - 1)}
  }

  lemma {:induction false} TriedAreDistinct(base: Bytes, n: nat)
    requires n >= 2
    ensures |Tried(base, n)| == n - 2
    ensures forall x :: x in Tried(base, n) ==> exists m :: 2 <= m < n && x == Candidate(base, m)
  {
    hide Candidate;
    if n > 2 {
      TriedAreDistinct(base, n - 1);
      if Candidate(base, n - 1) in Tried(base, n - 1) {
        var m :| 2 <= m < n - 1 && Candidate(base, n - 1) == Candidate(base, m);
        CandidateInjective(base, n - 1, m);
        assert false;
      }
    }
  }

  lemma SubsetSize<T>(a: set<T>, b: set<T>)
    requires a <= b
    ensures |a| <= |b|
  {
    assert b == a + (b - a);
  }

  lemma TriedFit(existing: set<Bytes>, base: Bytes, n: nat)
    requires n >= 2 && Tried(base, n) <= existing
    ensures n <= |existing| + 2
  {
    hide Tried, Candidate;
    TriedAreDistinct(base, n);
    SubsetSize(Tried(base, n), existing);
  }

  /** The name that the numbering starts from. */
  function NameBase(given: Bytes): (r: Bytes) { if given == [] then DEFAULT_NAME else given }

  ghost predicate IsCandidate(base: Bytes, name: Bytes) {
    name == base || exists k :: k >= 2 && name == Candidate(base, k)
  }

  /** The name picked for a request: the base if it is free, otherwise the base with the least free suffix from 2 on. */
  ghost predicate Picks(existing: set<Bytes>, given: Bytes, name: Bytes) {
    && name !in existing
    && var base := NameBase(given);
    if base !in existing then name == base else exists k :: k >= 2 && IsLeast(existing, base, k, name)
  }

  predicate IsLeast(existing: set<Bytes>, base: Bytes, suffix: nat, name: Bytes) {
    name == Candidate(base, suffix) && forall m :: 2 <= m < suffix ==> Candidate(base, m) in existing
  }

  /** The search ends within one more trial than there are names, so a 32-bit counter cannot wrap for sets that fit in
      memory. */
  method UniqueFieldName(existing: set<Bytes>, given: Bytes) returns (name: Bytes, ghost suffix: nat)
    ensures Picks(existing, given, name) && IsCandidate(NameBase(given), name)
    ensures NameBase(given) in existing ==> 2 <= suffix <= |existing| + 2 && name == Candidate(NameBase(given), suffix)
    ensures |existing| < 0xFFFF_FFFE ==> suffix < 0x1_0000_0000
    ensures NameBase(given) in existing ==> IsSuffixed(NameBase(given), suffix, name)
  {
    hide Candidate;
    var base := NameBase(given);
    suffix := 0;
    if base !in existing { return base, 0; }
    var s := 2;
    while Candidate(base, s) in existing
      invariant s >= 2 && Tried(base, s) <= existing
      invariant forall m :: 2 <= m < s ==> Candidate(base, m) in existing
      decreases |existing| + 2 - s
    {
      TriedFit(existing, base, s + 1);
      s := s + 1;
    }
    TriedFit(existing, base, s);
    name, suffix := Candidate(base, s), s;
    CandidateReads(base, s);
    assert IsLeast(existing, base, s, name);
  }

  // ---- Names as the file holds them -----------------------------------------------------------------

  /** Text that a PDF string holds as it is: ASCII without the codes that PDFDocEncoding gives to other characters. */
  predicate Plain(s: Bytes) { forall i :: 0 <= i < |s| ==> s[i] < 0x7F && !(0x18 <= s[i] <= 0x1F) }

  /** What is known of the printing of text strings: plain text is stored as itself, and no other text is. */
  ghost predicate StoresPlain(stored: Bytes -> Bytes) { forall s :: stored(s) == s <==> Plain(s) }

  lemma PlainCandidate(base: Bytes, name: Bytes)
    requires Plain(base) && IsCandidate(base, name)
    ensures Plain(name)
  {
    if name != base {
      var k :| k >= 2 && name == Candidate(base, k);
      DecRoundTrip(k);
      forall i | 0 <= i < |name| ensures name[i] < 0x7F && !(0x18 <= name[i] <= 0x1F) {
        assert i > |base| ==> name[i] == Dec(k)[i - |base| - 1];
      }
    }
  }

  /** The names of existing fields are compared as they are stored, and the request as it is given. So the field that is
      written is new to every document exactly when the request is plain text. */
  lemma StoredNameIsNewIff(stored: Bytes -> Bytes, given: Bytes)
    requires StoresPlain(stored)
    ensures Plain(NameBase(given)) <==>
      forall existing, name :: Picks(existing, given, name) ==> stored(name) !in existing
  {
    hide Candidate, Plain;
    var base := NameBase(given);
    if Plain(base) {
      forall existing, name | Picks(existing, given, name) ensures stored(name) !in existing {
        PickIsCandidate(existing, given, name);
        PlainCandidate(base, name);
      }
    } else {
      assert Picks({stored(base)}, given, base);
    }
  }

  lemma PickIsCandidate(existing: set<Bytes>, given: Bytes, name: Bytes)
    requires Picks(existing, given, name)
    ensures IsCandidate(NameBase(given), name)
  {
    hide Candidate;
  }

  /** Signing twice under a name that is not plain: the second field is stored under the name of the first. */
  lemma SigningTwiceRepeats(stored: Bytes -> Bytes, existing: set<Bytes>, given: Bytes)
    requires StoresPlain(stored) && !Plain(NameBase(given)) && NameBase(given) !in existing
    ensures var base := NameBase(given);
      && Picks(existing, given, base) && Picks(existing + {stored(base)}, given, base)
      && stored(base) in existing + {stored(base)}
  {
    hide Plain;
  }

  /** For instance the name that consists of the Cyrillic letter Pe, in UTF-8. */
  lemma CyrillicNameRepeats(stored: Bytes -> Bytes)
    requires StoresPlain(stored)
    ensures var name: Bytes := [0xD0, 0x9F];
      Picks({}, name, name) && Picks({stored(name)}, name, name)
  {
    var name: Bytes := [0xD0, 0x9F];
    assert name[0] == 0xD0;
    assert {} + {stored(name)} == {stored(name)};
    SigningTwiceRepeats(stored, {}, name);
  }
}
