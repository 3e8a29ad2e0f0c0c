/**
 The hand-written SHA-1 (src/lib/core/KeyParsers.cpp:53-55, 217-309): the block function of section 6.1.2 of FIPS 180-4
 over 32-bit words, and the proof that the full-block loop and the one- or two-block tail feed it exactly the blocks of
 the padded message of section 5.1.1.
 */
module Sha1 {
  import opened ByteStrings
  import opened Der

  // ---- The block function -----------------------------------------------------------------------

  datatype State = State(h0: bv32, h1: bv32, h2: bv32, h3: bv32, h4: bv32)

  const INITIAL: State := State(0x67452301, 0xEFCDAB89, 0x98BADCFE, 0x10325476, 0xC3D2E1F0)

  function Rotate(value: bv32, shift: nat): (r: bv32)
    requires 0 < shift < 32
  {
    (value << shift) | (value >> (32 - shift))
  }

  function Word(block: Bytes, base: nat): (w: bv32)
    requires base + 4 <= |block|
  {
    ((block[base] as bv32) << 24) | ((block[base + 1] as bv32) << 16) | ((block[base + 2] as bv32) << 8)
    | (block[base + 3] as bv32)
  }

  function Mix(a: bv32, b: bv32, c: bv32, d: bv32): (w: bv32) { Rotate(a ^ b ^ c ^ d, 1) }

  /** The message schedule W. */
  function Schedule(block: Bytes, t: nat): (w: bv32)
    requires |block| == 64
  {
    if t < 16 then Word(block, 4 * t)
    else Mix(Schedule(block, t - 3), Schedule(block, t - 8), Schedule(block, t - 14), Schedule(block, t - 16))
  }

  predicate Bit(w: bv32, j: bv32)
    requires j < 32
  {
    (w >> j) & 1 == 1
  }

  predicate Odd(a: bool, b: bool, c: bool, d: bool) { ((a != b) != c) != d }

  lemma MixBit(a: bv32, b: bv32, c: bv32, d: bv32, j: bv32)
    requires j < 32
    ensures var i := (j + 31) % 32; Bit(Mix(a, b, c, d), j) <==> Odd(Bit(a, i), Bit(b, i), Bit(c, i), Bit(d, i))
  {
    RotateOnce(a ^ b ^ c ^ d, j);
    XorBit(a, b, c, d, (j + 31) % 32);
  }

  lemma RotateOnce(w: bv32, j: bv32)
    requires j < 32
    ensures Bit(Rotate(w, 1), j) <==> Bit(w, (j + 31) % 32)
  {
  }

  lemma XorBit(a: bv32, b: bv32, c: bv32, d: bv32, i: bv32)
    requires i < 32
    ensures Bit(a ^ b ^ c ^ d, i) <==> Odd(Bit(a, i), Bit(b, i), Bit(c, i), Bit(d, i))
  {
  }

  /** From the seventeenth on, each bit of a word is the parity of the bits one place to the right, around the word, of
      the words 3, 8, 14 and 16 before it. */
  lemma ScheduleBit(block: Bytes, t: nat, j: bv32)
    requires |block| == 64 && t >= 16 && j < 32
    ensures var i := (j + 31) % 32;
      Bit(Schedule(block, t), j) <==> Odd(Bit(Schedule(block, t - 3), i), Bit(Schedule(block, t - 8), i),
                                          Bit(Schedule(block, t - 14), i), Bit(Schedule(block, t - 16), i))
  {
    hide Mix, Bit, Odd, Word;
    MixBit(Schedule(block, t - 3), Schedule(block, t - 8), Schedule(block, t - 14), Schedule(block, t - 16), j);
  }

  /** Section 4.1.1 of FIPS 180-4: Ch and Maj with exclusive or, and Parity. */
  function Ch(b: bv32, c: bv32, d: bv32): (f: bv32) { (b & c) ^ ((!b) & d) }

  function Maj(b: bv32, c: bv32, d: bv32): (f: bv32) { (b & c) ^ (b & d) ^ (c & d) }

  function Parity(b: bv32, c: bv32, d: bv32): (f: bv32) { b ^ c ^ d }

  function F(t: nat, b: bv32, c: bv32, d: bv32): (f: bv32) {
    if t < 20 then Ch(b, c, d) else if t < 40 then Parity(b, c, d) else if t < 60 then Maj(b, c, d) else Parity(b, c, d)
  }

  /** The code has inclusive or in both places. */
  lemma InclusiveForms(b: bv32, c: bv32, d: bv32)
    ensures (b & c) | ((!b) & d) == (b & c) ^ ((!b) & d)
    ensures (b & c) | (b & d) | (c & d) == (b & c) ^ (b & d) ^ (c & d)
  {
  }

  lemma ChIs(b: bv32, c: bv32, d: bv32)
    ensures Ch(b, c, d) == (b & c) ^ ((!b) & d)
  {
  }

  lemma MajIs(b: bv32, c: bv32, d: bv32)
    ensures Maj(b, c, d) == (b & c) ^ (b & d) ^ (c & d)
  {
  }

  lemma ParityIs(b: bv32, c: bv32, d: bv32)
    ensures Parity(b, c, d) == b ^ c ^ d
  {
  }

  method RoundWord(t: nat, b: bv32, c: bv32, d: bv32) returns (f: bv32)
    ensures f == F(t, b, c, d)
  {
    hide Ch, Maj, Parity;
    InclusiveForms(b, c, d);
    ChIs(b, c, d);
    MajIs(b, c, d);
    ParityIs(b, c, d);
    if t < 20 {
      f := (b & c) | ((!b) & d);
    } else if t < 40 {
      f := b ^ c ^ d;
    } else if t < 60 {
      f := (b & c) | (b & d) | (c & d);
    } else {
      f := b ^ c ^ d;
    }
  }

  function K(t: nat): (k: bv32) {
    if t < 20 then 0x5A827999 else if t < 40 then 0x6ED9EBA1 else if t < 60 then 0x8F1BBCDC else 0xCA62C1D6
  }

  function Temp(a: bv32, f: bv32, e: bv32, k: bv32, w: bv32): (r: bv32) { Rotate(a, 5) + f + e + k + w }

  /** One of the 80 rounds; the state's words are a, b, c, d and e. */
  function Round(s: State, t: nat, w: bv32): (r: State) {
    State(Temp(s.h0, F(t, s.h1, s.h2, s.h3), s.h4, K(t), w), s.h0, Rotate(s.h1, 30), s.h2, s.h3)
  }

  function Rounds(s: State, block: Bytes, t: nat): (r: State)
    requires |block| == 64
  {
    if t == 0 then s else Round(Rounds(s, block, t - 1), t - 1, Schedule(block, t - 1))
  }

  function Sum(s: State, r: State): (q: State) {
    State(s.h0 + r.h0, s.h1 + r.h1, s.h2 + r.h2, s.h3 + r.h3, s.h4 + r.h4)
  }

  function Compress(s: State, block: Bytes): (r: State)
    requires |block| == 64
  {
    Sum(s, Rounds(s, block, 80))
  }

  method ExpandBlock(block: Bytes) returns (schedule: array<bv32>)
    requires |block| == 64
    ensures fresh(schedule) && schedule.Length == 80
    ensures forall t :: 0 <= t < 80 ==> schedule[t] == Schedule(block, t)
  {
    hide Word, Mix;
    schedule := new bv32[80];
    for i := 0 to 16
      invariant forall t :: 0 <= t < i ==> schedule[t] == Schedule(block, t)
    {
      schedule[i] := Word(block, i * 4);
    }
    for i := 16 to 80
      invariant forall t :: 0 <= t < i ==> schedule[t] == Schedule(block, t)
    {
      schedule[i] := Mix(schedule[i - 3], schedule[i - 8], schedule[i - 14], schedule[i - 16]);
    }
  }

  method ProcessBlock(s: State, block: Bytes) returns (r: State)
    requires |block| == 64
    ensures r == Compress(s, block)
  {
    hide Schedule, Rotate, F, K, Temp, Sum;
    var schedule := ExpandBlock(block);
    var a, b, c, d, e := s.h0, s.h1, s.h2, s.h3, s.h4;
    for i := 0 to 80
      invariant State(a, b, c, d, e) == Rounds(s, block, i)
      invariant forall t :: 0 <= t < 80 ==> schedule[t] == Schedule(block, t)
    {
      var f := RoundWord(i, b, c, d);
      var temp := Temp(a, f, e, K(i), schedule[i]);
      e, d, c, b, a := d, c, Rotate(b, 30), a, temp;
    }
    r := Sum(s, State(a, b, c, d, e));
  }

  // ---- The standard -----------------------------------------------------------------------------

  /** The zero octets of the padding. */
  function Zeros(n: nat): (k: nat) { if n % 64 < 56 then 55 - n % 64 else 119 - n % 64 }

  /** It is the least number that makes the length field end a block. */
  lemma ZerosAreLeast(n: nat, k: nat)
    ensures (n + 1 + Zeros(n)) % 64 == 56
    ensures (n + 1 + k) % 64 == 56 ==> Zeros(n) <= k
  {
    var q, r := n / 64, n % 64;
    assert n == 64 * q + r;
    if r < 56 {
      assert n + 1 + Zeros(n) == 64 * q + 56;
    } else {
      assert n + 1 + Zeros(n) == 64 * (q + 1) + 56;
    }
    if k < Zeros(n) {
      var d := Zeros(n) - k;
      assert n + 1 + k == 64 * q + (r + 1 + k) && r + 1 + k != 56;
      assert r + 1 + k < 64 + 56;
    }
  }

  /** Section 5.1.1 of FIPS 180-4, for messages of whole octets; the length field holds the low 64 bits. */
  function Padded(m: Bytes): (r: Bytes)
    ensures |r| % 64 == 0
  {
    PaddedLength(|m|);
    m + [0x80] + Fill(Zeros(|m|), 0) + BeBytes(8 * |m|, 8)
  }

  lemma PaddedLength(n: nat)
    ensures (n + 1 + Zeros(n) + 8) % 64 == 0
  {
    ZerosAreLeast(n, 0);
  }

  /** Below 2^61 octets, which is as far as the standard goes, the length field is the bit length. */
  lemma LengthFieldIsExact(m: Bytes)
    requires |m| < 0x2000_0000_0000_0000
    ensures BeValue(Padded(m)[|Padded(m)| - 8..]) == 8 * |m|
  {
    hide BeBytes, BeValue;
    assert Padded(m)[|Padded(m)| - 8..] == BeBytes(8 * |m|, 8);
    WordLimitIsPower(8);
    hide Pow256;
    BeRoundTrip(8 * |m|, 8);
  }

  /** Section 6.1: the block function folded over the blocks. */
  function Fold(s: State, blocks: Bytes): (r: State)
    requires |blocks| % 64 == 0
    decreases |blocks|
  {
    if blocks == [] then s else Fold(Compress(s, blocks[..64]), blocks[64..])
  }

  function Octet(w: bv32): (b: Byte) { (w & 0xFF) as int }

  function WordOctets(w: bv32): (r: Bytes)
    ensures |r| == 4
  {
    [Octet(w >> 24), Octet(w >> 16), Octet(w >> 8), Octet(w)]
  }

  function Octets(s: State): (r: Bytes)
    ensures |r| == 20
  {
    WordOctets(s.h0) + WordOctets(s.h1) + WordOctets(s.h2) + WordOctets(s.h3) + WordOctets(s.h4)
  }

  function Digest(m: Bytes): (r: Bytes)
    ensures |r| == 20
  {
    Octets(Fold(INITIAL, Padded(m)))
  }

  // ---- The loop and the tail --------------------------------------------------------------------

  lemma {:induction false} FoldJoin(s: State, a: Bytes, b: Bytes)
    requires |a| % 64 == 0 && |b| % 64 == 0
    ensures |a + b| % 64 == 0 && Fold(s, a + b) == Fold(Fold(s, a), b)
    decreases |a|
  {
    hide Compress;
    if a == [] {
      assert a + b == b;
    } else {
      assert (a + b)[..64] == a[..64];
      assert (a + b)[64..] == a[64..] + b;
      FoldJoin(Compress(s, a[..64]), a[64..], b);
    }
  }

  lemma FoldOne(s: State, block: Bytes)
    requires |block| == 64
    ensures Fold(s, block) == Compress(s, block)
  {
    hide Compress;
    assert block[..64] == block && block[64..] == [];
  }

  /** The remainder, the marker, zeros and the length: one block, or two when fewer than eight octets are left. */
  function Tail(m: Bytes): (r: Bytes)
    ensures |r| == if |m| % 64 >= 56 then 128 else 64
  {
    m[|m| / 64 * 64..] + [0x80] + Fill(Zeros(|m|), 0) + BeBytes(8 * |m|, 8)
  }

  lemma PaddedSplits(m: Bytes)
    ensures Padded(m) == m[..|m| / 64 * 64] + Tail(m)
  {
    hide BeBytes, Fill;
    assert m == m[..|m| / 64 * 64] + m[|m| / 64 * 64..];
  }

  /** The eight octets that the shifts of the bit length give. */
  function LengthOctet(bits: nat, i: nat): (b: Byte)
    requires i < 8
  {
    bits / Pow256(7 - i) % 256
  }

  lemma {:induction false} BeBytesIndex(n: nat, k: nat, i: nat)
    requires i < k
    ensures BeBytes(n, k)[i] == n / Pow256(k - 1 - i) % 256
  {
    if i < k - 1 {
      BeBytesIndex(n / 256, k - 1, i);
      DivDiv(n, Pow256(k - 2 - i));
    }
  }

  lemma DivDiv(n: nat, p: nat)
    requires p > 0
    ensures n / 256 / p == n / (256 * p)
  {
    var q, r := n / 256, n % 256;
    var a, b := q / p, q % p;
    assert n == 256 * (p * a + b) + r;
    assert 256 * (p * a) == (256 * p) * a;
    assert n == (256 * p) * a + (256 * b + r);
    assert 0 <= 256 * b + r < 256 * p;
    Quotient(n, 256 * p, a, 256 * b + r);
  }

  lemma Quotient(n: nat, d: nat, q: nat, r: nat)
    requires n == d * q + r && r < d
    ensures n / d == q
  {
    var x := n / d - q;
    assert d * (n / d) + n % d == d * q + r;
    assert d * x == r - n % d;
    Multiple(d, x);
  }

  lemma Multiple(d: int, x: int)
    requires d > 0
    ensures x >= 1 ==> d * x >= d
    ensures x <= -1 ==> d * x <= -d
  {
  }

  /** The wrapped product has the same low octets. */
  lemma LowOctets(n: nat)
    ensures BeBytes(n % UINT64_LIMIT, 8) == BeBytes(n, 8)
  {
    WordLimitIsPower(8);
    hide BeBytes, Pow256;
    BeBytesMod(n, 8);
  }

  lemma {:induction false} BeBytesMod(n: nat, k: nat)
    ensures BeBytes(n % Pow256(k), k) == BeBytes(n, k)
  {
    if k > 0 {
      ModDiv(n, Pow256(k - 1));
      BeBytesMod(n / 256, k - 1);
    }
  }

  lemma ModDiv(n: nat, p: nat)
    requires p > 0
    ensures n % (256 * p) / 256 == n / 256 % p
    ensures n % (256 * p) % 256 == n % 256
  {
    DivDiv(n, p);
    var q := n / (256 * p);
    assert n % (256 * p) == n - 256 * (p * q) by { assert (256 * p) * q == 256 * (p * q); }
    assert n / 256 % p == n / 256 - p * q;
  }

  /** The tail buffer is the last one or two blocks of the padded message. */
  lemma TailIs(m: Bytes, tail: Bytes)
    requires |tail| == 128
    requires var r := |m| % 64; var at := (if r >= 56 then 128 else 64) - 8;
      && tail[..r] == m[|m| / 64 * 64..] && tail[r] == 0x80
      && (forall i :: r < i < at ==> tail[i] == 0)
      && (forall i :: 0 <= i < 8 ==> tail[at + i] == LengthOctet(8 * |m| % UINT64_LIMIT, i))
    ensures tail[..if |m| % 64 >= 56 then 128 else 64] == Tail(m)
  {
    hide BeBytes, Pow256;
    var r := |m| % 64;
    var total := if r >= 56 then 128 else 64;
    var at := total - 8;
    assert tail[r..r + 1] == [0x80];
    assert tail[r + 1..at] == Fill(Zeros(|m|), 0);
    LowOctets(8 * |m|);
    assert tail[at..total] == BeBytes(8 * |m| % UINT64_LIMIT, 8) by {
      forall i | 0 <= i < 8 ensures tail[at..total][i] == BeBytes(8 * |m| % UINT64_LIMIT, 8)[i] {
        BeBytesIndex(8 * |m| % UINT64_LIMIT, 8, i);
        assert tail[at + i] == LengthOctet(8 * |m| % UINT64_LIMIT, i);
      }
    }
    assert tail[..total] == tail[..r] + tail[r..r + 1] + tail[r + 1..at] + tail[at..total];
  }

  method WholeBlocks(data: Bytes) returns (s: State)
    ensures s == Fold(INITIAL, data[..|data| / 64 * 64])
  {
    hide Compress;
    s := INITIAL;
    for i := 0 to |data| / 64
      invariant s == Fold(INITIAL, data[..i * 64])
    {
      var block := data[i * 64..i * 64 + 64];
      assert data[..(i + 1) * 64] == data[..i * 64] + block;
      FoldJoin(INITIAL, data[..i * 64], block);
      FoldOne(s, block);
      s := ProcessBlock(s, block);
    }
  }

  method CopyInto(tail: array<Byte>, piece: Bytes)
    requires |piece| <= tail.Length
    modifies tail
    ensures tail[..] == piece + old(tail[..])[|piece|..]
  {
    for i := 0 to |piece|
      invariant tail[..i] == piece[..i] && tail[i..] == old(tail[..])[i..]
    {
      tail[i] := piece[i];
    }
  }

  method WriteLength(tail: array<Byte>, at: nat, bits: nat)
    requires at + 8 <= tail.Length
    modifies tail
    ensures tail[..at] == old(tail[..at])
    ensures forall j :: 0 <= j < 8 ==> tail[at + j] == LengthOctet(bits, j)
  {
    hide LengthOctet;
    for i := 0 to 8
      invariant tail[..at] == old(tail[..at])
      invariant forall j :: 0 <= j < i ==> tail[at + j] == LengthOctet(bits, j)
    {
      tail[at + i] := LengthOctet(bits, i);
    }
  }

  lemma Marked(copied: Bytes, piece: Bytes, at: nat)
    requires |piece| < at <= 128 && copied == piece + Fill(128 - |piece|, 0)
    ensures copied[|piece| := 0x80][..at] == piece + [0x80] + Fill(at - |piece| - 1, 0)
  {
  }

  method MakeTail(data: Bytes) returns (tail: array<Byte>)
    ensures fresh(tail) && tail.Length == 128
    ensures tail[..if |data| % 64 >= 56 then 128 else 64] == Tail(data)
  {
    hide LengthOctet, Tail;
    tail := new Byte[128](_ => 0);
    var remainder := |data| % 64;
    CopyInto(tail, data[|data| / 64 * 64..]);
    ghost var copied := tail[..];
    tail[remainder] := 0x80;
    assert tail[..] == copied[remainder := 0x80];
    var bits := |data| * 8 % UINT64_LIMIT;
    var at := (if remainder >= 56 then 128 else 64) - 8;
    Marked(copied, data[|data| / 64 * 64..], at);
    assert tail[..at] == tail[..][..at];
    WriteLength(tail, at, bits);
    TailIs(data, tail[..]);
    assert tail[..][..at + 8] == tail[..at + 8];
  }

  /** Sha1Digest folds the block function over the padded message. */
  method Sha1Digest(data: Bytes) returns (digest: Bytes)
    ensures digest == Digest(data)
  {
    hide Compress, Octets, Tail, Fold, Padded;
    var s := WholeBlocks(data);
    var tail := MakeTail(data);
    PaddedSplits(data);
    FoldJoin(INITIAL, data[..|data| / 64 * 64], Tail(data));
    if |data| % 64 >= 56 {
      var first, second := tail[..64], tail[64..128];
      assert Tail(data) == first + second;
      FoldJoin(s, first, second);
      FoldOne(s, first);
      s := ProcessBlock(s, first);
      FoldOne(s, second);
      s := ProcessBlock(s, second);
    } else {
      FoldOne(s, tail[..64]);
      s := ProcessBlock(s, tail[..64]);
    }
    digest := Octets(s);
  }
}
