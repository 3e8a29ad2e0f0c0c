/**
 The shared DER reader (src/lib/util/Der.cpp): the exact reader over unbounded integers, the loop that
 computes it in wrap-around machine words of 4 or 8 bytes, and the encoder the container proofs use.
 */
module Der {
  import opened ByteStrings

  /** sizeof(std::size_t) of the two supported builds. */
  type WordSize = w: int | w == 4 || w == 8 witness 8

  function Pow256(k: nat): (r: nat)
    ensures r >= 1
  {
    if k == 0 then 1 else 256 * Pow256(k - 1)
  }

  lemma {:induction false} Pow256Monotone(j: nat, k: nat)
    requires j <= k
    ensures Pow256(j) <= Pow256(k)
  {
    if j < k { Pow256Monotone(j, k - 1); }
  }

  /** Big-endian value of an octet string. */
  function BeValue(s: Bytes): (n: nat) {
    if |s| == 0 then 0 else BeValue(s[..|s| - 1]) * 256 + s[|s| - 1]
  }

  /** The low k octets of n, most significant first. */
  function BeBytes(n: nat, k: nat): (s: Bytes)
    ensures |s| == k
  {
    if k == 0 then [] else BeBytes(n / 256, k - 1) + [n % 256]
  }

  lemma {:induction false} BeValueBound(s: Bytes)
    ensures BeValue(s) < Pow256(|s|)
    ensures |s| > 0 && s[0] > 0 ==> BeValue(s) >= Pow256(|s| - 1)
  {
    if |s| == 1 {
      assert BeValue(s[..0]) == 0;
      assert Pow256(1) == 256 * Pow256(0);
    } else if |s| > 1 {
      BeValueBound(s[..|s| - 1]);
      assert Pow256(|s| - 1) == 256 * Pow256(|s| - 2);
    }
  }

  lemma {:induction false} BeRoundTrip(n: nat, k: nat)
    requires n < Pow256(k)
    ensures BeValue(BeBytes(n, k)) == n
  {
    if k > 0 {
      BeRoundTrip(n / 256, k - 1);
      var s := BeBytes(n, k);
      assert s[..|s| - 1] == BeBytes(n / 256, k - 1);
    }
  }

  // ---- The exact reader -----------------------------------------------------------------------

  /** A length field read at an offset: the value length, and where the value starts. */
  datatype Length = Length(length: nat, start: nat)

  /** Section 8.1.3 of X.690 over unbounded integers: short form, or any number of length octets. */
  function X690Length(data: Bytes, offset: nat, limit: nat): (r: Option<Length>)
    requires limit <= |data|
  {
    if offset >= limit then None
    else if data[offset] < 128 then
      if offset + 1 + data[offset] <= limit then Some(Length(data[offset], offset + 1)) else None
    else
      var count := data[offset] - 128;
      if count == 0 || offset + 1 + count > limit then None
      else
        var length := BeValue(data[offset + 1..offset + 1 + count]);
        if offset + 1 + count + length <= limit then Some(Length(length, offset + 1 + count)) else None
  }

  /** The number of length octets the reader is willing to take, 0 for the short form. */
  function LengthOctets(first: Byte): (k: nat) { if first < 128 then 0 else first - 128 }

  /** What ParseDerLength accepts: the exact value, with at most a word of length octets. */
  function LengthAt(w: WordSize, data: Bytes, offset: nat, limit: nat): (r: Option<Length>)
    requires limit <= |data|
  {
    if offset < limit && LengthOctets(data[offset]) > w then None else X690Length(data, offset, limit)
  }

  /** On minimal (DER) length fields the word-sized reader and the exact one accept the same inputs
      with the same result, whatever the word; the two differ only on superfluous leading octets. */
  lemma WordReaderIsExact(w: WordSize, data: Bytes, offset: nat, limit: nat)
    requires limit <= |data| < WordLimit(w)
    ensures LengthAt(w, data, offset, limit).Some? ==>
              LengthAt(w, data, offset, limit) == X690Length(data, offset, limit)
    ensures LengthAt(w, data, offset, limit) != X690Length(data, offset, limit) <==>
              X690Length(data, offset, limit).Some? && LengthOctets(data[offset]) > w
    ensures LengthAt(w, data, offset, limit) != X690Length(data, offset, limit) ==> data[offset + 1] == 0
  {
    if offset < limit && LengthOctets(data[offset]) > w && offset + 1 + LengthOctets(data[offset]) <= limit {
      var s := data[offset + 1..offset + 1 + LengthOctets(data[offset])];
      BeValueBound(s);
      WordLimitIsPower(w);
      Pow256Monotone(w, |s| - 1);
      assert s[0] == data[offset + 1];
    }
  }

  // ---- The machine-word implementation -----------------------------------------------------------

  /** 2^32 or 2^64: one past the largest std::size_t. */
  function WordLimit(w: WordSize): (r: nat) {
    if w == 4 then 0x1_0000_0000 else 0x1_0000_0000_0000_0000
  }

  lemma WordLimitIsPower(w: WordSize)
    ensures WordLimit(w) == Pow256(w) == 256 * Pow256(w - 1)
  {
    assert Pow256(4) == 256 * (256 * (256 * (256 * Pow256(0))));
    assert Pow256(8) == 256 * (256 * (256 * (256 * Pow256(4))));
  }

  function WAdd(w: WordSize, a: nat, b: nat): (r: nat) { (a + b) % WordLimit(w) }
  function WSub(w: WordSize, a: nat, b: nat): (r: nat) { (a - b) % WordLimit(w) }

  /** (a << 8) | b on a word: the high octet falls off. */
  function WShiftIn(w: WordSize, a: nat, b: Byte): (r: nat) { (a * 256) % WordLimit(w) + b }

  predicate InBounds(w: WordSize, start: nat, len: nat, limit: nat) {
    start <= limit && len <= WSub(w, limit, start)
  }

  /** The overflow-proof form decides exactly start + len <= limit. */
  lemma InBoundsExact(w: WordSize, start: nat, len: nat, limit: nat)
    requires start < WordLimit(w) && len < WordLimit(w) && limit < WordLimit(w)
    ensures InBounds(w, start, len, limit) <==> start + len <= limit
  {
  }

  lemma AddExact(w: WordSize, a: nat, b: nat)
    requires a + b < WordLimit(w)
    ensures WAdd(w, a, b) == a + b
  {
  }

  /** Below the top octet the shift loses nothing, and the guard of the loop says exactly that. */
  lemma ShiftInExact(w: WordSize, length: nat, b: Byte)
    ensures length > (WordLimit(w) - 1) / 256 <==> length >= Pow256(w - 1)
    ensures length < Pow256(w - 1) ==> WShiftIn(w, length, b) == length * 256 + b
  {
    WordLimitIsPower(w);
  }

  lemma BeValueStep(data: Bytes, offset: nat, i: nat)
    requires offset + i < |data|
    ensures BeValue(data[offset..offset + i + 1]) == BeValue(data[offset..offset + i]) * 256 + data[offset + i]
  {
    var s := data[offset..offset + i + 1];
    assert s[..|s| - 1] == data[offset..offset + i];
  }

  lemma BeValueFitsWord(w: WordSize, s: Bytes)
    ensures |s| < w ==> BeValue(s) < Pow256(w - 1)
    ensures |s| <= w ==> BeValue(s) < WordLimit(w)
  {
    WordLimitIsPower(w);
    BeValueBound(s);
    if |s| < w { Pow256Monotone(|s|, w - 1); }
  }

  /** The length octets: (length << 8) | octet on a word, stopping before a shift would lose bits. The
      stop is never taken, because at most a word of octets is read. */
  method ReadLengthOctets(w: WordSize, data: Bytes, offset: nat, count: nat)
    returns (ok: bool, next: nat, length: nat)
    requires count <= w && offset + count <= |data| < WordLimit(w)
    ensures ok && next == offset + count
    ensures length == BeValue(data[offset..offset + count]) < WordLimit(w)
  {
    ok, next, length := true, offset, 0;
    var i := 0;
    while i < count
      invariant 0 <= i <= count && next == offset + i
      invariant length == BeValue(data[offset..offset + i])
    {
      BeValueFitsWord(w, data[offset..offset + i]);
      ShiftInExact(w, length, data[next]);
      if length > (WordLimit(w) - 1) / 256 {
        assert false;
        ok := false;
        return;
      }
      BeValueStep(data, offset, i);
      length := WShiftIn(w, length, data[next]);
      AddExact(w, next, 1);
      next := WAdd(w, next, 1);
      i := i + 1;
    }
    BeValueFitsWord(w, data[offset..offset + count]);
  }

  /** ParseDerLength: every sum and shift is done modulo 256^w, and none of them ever wraps. */
  method ParseDerLength(w: WordSize, data: Bytes, limit: nat, offset: nat)
    returns (ok: bool, next: nat, length: nat)
    requires limit <= |data| < WordLimit(w) && offset < WordLimit(w)
    ensures ok <==> LengthAt(w, data, offset, limit).Some?
    ensures ok ==> LengthAt(w, data, offset, limit).value == Length(length, next)
    ensures ok ==> offset < next && next + length <= limit
  {
    ok, next, length := false, offset, 0;
    if offset >= limit { return; }
    var first := data[offset];
    AddExact(w, offset, 1);
    next := WAdd(w, offset, 1);
    if first < 128 {
      length := first;
      InBoundsExact(w, next, length, limit);
      ok := InBounds(w, next, length, limit);
      return;
    }
    var count := first - 128;
    InBoundsExact(w, next, count, limit);
    if count == 0 || count > w || !InBounds(w, next, count, limit) { return; }
    ok, next, length := ReadLengthOctets(w, data, next, count);
    InBoundsExact(w, next, length, limit);
    ok := InBounds(w, next, length, limit);
  }

  datatype TlvView = TlvView(tag: Byte, start: nat, length: nat, next: nat)

  /** A sound view of an element of the buffer. */
  predicate IsView(data: Bytes, v: TlvView) { v.start + v.length == v.next <= |data| }

  /** The octets of an element's value. */
  function ValueOf(data: Bytes, v: TlvView): (r: Bytes)
    requires IsView(data, v)
    ensures |r| == v.length
  {
    data[v.start..v.next]
  }

  /** The element at an offset, exactly; the limit is clamped to the buffer as the vector overload does. */
  function Tlv(w: WordSize, data: Bytes, offset: nat, limit: nat): (r: Option<TlvView>)
    ensures r.Some? ==> offset + 2 <= r.value.start && r.value.start + r.value.length == r.value.next <= limit
    ensures r.Some? ==> r.value.next <= |data| && r.value.tag == data[offset]
  {
    var eff := if limit < |data| then limit else |data|;
    if offset >= eff then None
    else
      match LengthAt(w, data, offset + 1, eff)
      case None => None
      case Some(l) => Some(TlvView(data[offset], l.start, l.length, l.start + l.length))
  }

  method ParseTlvAt(w: WordSize, data: Bytes, offset: nat, limit: nat) returns (ok: bool, out: TlvView)
    requires |data| < WordLimit(w) && offset < WordLimit(w)
    ensures ok <==> Tlv(w, data, offset, limit).Some?
    ensures ok ==> Tlv(w, data, offset, limit).value == out
  {
    ok, out := false, TlvView(0, 0, 0, 0);
    var effective := if limit < |data| then limit else |data|;
    if offset >= effective { return; }
    AddExact(w, offset, 1);
    var found, start, length := ParseDerLength(w, data, effective, WAdd(w, offset, 1));
    if !found { return; }
    AddExact(w, start, length);
    ok, out := true, TlvView(data[offset], start, length, WAdd(w, start, length));
  }

  // ---- Encoding ------------------------------------------------------------------------------

  /** The number of octets of the minimal big-endian form of n. */
  function OctetsNeeded(n: nat): (k: nat)
    requires n < 0x1_0000_0000_0000_0000
    ensures 1 <= k <= 8
    ensures n < 0x1_0000_0000 ==> k <= 4
  {
    if n < 0x100 then 1 else if n < 0x1_0000 then 2 else if n < 0x100_0000 then 3 else if n < 0x1_0000_0000 then 4
    else if n < 0x100_0000_0000 then 5 else if n < 0x1_0000_0000_0000 then 6 else if n < 0x100_0000_0000_0000 then 7
    else 8
  }

  function EncodeLength(n: nat): (r: Bytes)
    requires n < 0x1_0000_0000_0000_0000
    ensures |r| >= 1
  {
    if n < 128 then [n] else [128 + OctetsNeeded(n)] + BeBytes(n, OctetsNeeded(n))
  }

  predicate Encodable(v: Bytes) { |v| < 0x1_0000_0000_0000_0000 }

  /** The DER encoding of an element: tag, minimal definite length, value. */
  function EncodeTlv(tag: Byte, value: Bytes): (r: Bytes)
    requires Encodable(value)
    ensures |r| >= 2 + |value|
  {
    [tag] + EncodeLength(|value|) + value
  }

  lemma OctetsSuffice(n: nat)
    requires n < 0x1_0000_0000_0000_0000
    ensures n < Pow256(OctetsNeeded(n))
  {
    assert Pow256(1) == 256 * Pow256(0);
    assert Pow256(2) == 256 * Pow256(1);
    assert Pow256(3) == 256 * Pow256(2);
    assert Pow256(4) == 256 * Pow256(3);
    assert Pow256(5) == 256 * Pow256(4);
    assert Pow256(6) == 256 * Pow256(5);
    assert Pow256(7) == 256 * Pow256(6);
    assert Pow256(8) == 256 * Pow256(7);
  }

  lemma LongLength(w: WordSize, data: Bytes, offset: nat, limit: nat, k: nat, octets: Bytes)
    requires 0 < k <= w && offset + 1 + k <= limit <= |data| && data[offset] == 128 + k
    requires |octets| == k && At(data, offset + 1, octets)
    requires offset + 1 + k + BeValue(octets) <= limit
    ensures LengthAt(w, data, offset, limit) == Some(Length(BeValue(octets), offset + 1 + k))
  {
  }

  lemma LongLengthOfEncoded(w: WordSize, data: Bytes, offset: nat, limit: nat, n: nat, k: nat)
    requires n < WordLimit(w) && k == OctetsNeeded(n) && At(data, offset, [128 + k] + BeBytes(n, k))
    requires offset + 1 + k + n <= limit <= |data|
    ensures LengthAt(w, data, offset, limit) == Some(Length(n, offset + 1 + k))
  {
    hide BeBytes, BeValue;
    OctetsSuffice(n);
    BeRoundTrip(n, k);
    AtCons(data, offset, 128 + k, BeBytes(n, k));
    LongLength(w, data, offset, limit, k, BeBytes(n, k));
  }

  lemma LengthOfEncoded(w: WordSize, data: Bytes, offset: nat, limit: nat, n: nat)
    requires n < WordLimit(w) && At(data, offset, EncodeLength(n))
    requires offset + |EncodeLength(n)| + n <= limit <= |data|
    ensures LengthAt(w, data, offset, limit) == Some(Length(n, offset + |EncodeLength(n)|))
  {
    if n < 128 {
      AtIndex(data, offset, [n], 0);
    } else {
      LongLengthOfEncoded(w, data, offset, limit, n, OctetsNeeded(n));
    }
  }

  lemma TlvOfParts(w: WordSize, data: Bytes, offset: nat, limit: nat, tag: Byte, f: Bytes, value: Bytes)
    requires At(data, offset, [tag] + f + value) && offset + 1 + |f| + |value| <= limit
    requires LengthAt(w, data, offset + 1, if limit < |data| then limit else |data|)
               == Some(Length(|value|, offset + 1 + |f|))
    ensures Tlv(w, data, offset, limit)
              == Some(TlvView(tag, offset + 1 + |f|, |value|, offset + 1 + |f| + |value|))
  {
    AtIndex(data, offset, [tag] + f + value, 0);
  }

  /** An encoded element lying inside the limit is read back, and its value lies at the reported start. */
  lemma TlvOfEncoded(w: WordSize, data: Bytes, offset: nat, limit: nat, tag: Byte, value: Bytes)
    requires |value| < WordLimit(w) && At(data, offset, EncodeTlv(tag, value))
    requires offset + |EncodeTlv(tag, value)| <= limit
    ensures var e := EncodeTlv(tag, value);
            Tlv(w, data, offset, limit) ==
              Some(TlvView(tag, offset + |e| - |value|, |value|, offset + |e|))
    ensures At(data, offset + |EncodeTlv(tag, value)| - |value|, value)
  {
    hide LengthAt, EncodeLength;
    var f := EncodeLength(|value|);
    AtSplit3(data, offset, [tag], f, value);
    LengthOfEncoded(w, data, offset + 1, if limit < |data| then limit else |data|, |value|);
    TlvOfParts(w, data, offset, limit, tag, f, value);
  }

  /** An element that ends inside one buffer is read the same from any longer buffer and wider limit. */
  lemma TlvExtends(w: WordSize, data: Bytes, more: Bytes, limit: nat)
    requires Tlv(w, data, 0, |data|).Some?
    requires |data| <= limit <= |data + more|
    ensures Tlv(w, data + more, 0, limit) == Tlv(w, data, 0, |data|)
  {
    var big := data + more;
    var count := LengthOctets(data[1]);
    if count > 0 {
      assert big[2..2 + count] == data[2..2 + count];
    }
  }
}
