/**
 What the key protector computes (src/lib/core/KeyParsers.cpp:315-332, 448-506), octet by octet and bit by bit: the
 password, the chain of digests, and exactly which key is recovered from a payload.
 */
module JksKeys {
  import opened ByteStrings
  import opened Der
  import opened Sha1
  import opened Utf
  import opened JksProtector

  // ---- The password -----------------------------------------------------------------------------

  function UnitOf(high: nat, low: nat): (u: nat) { 256 * high + low }

  lemma {:induction false} UnitOctetsAt(s: seq<Unit>, i: nat)
    requires i < |s|
    ensures |UnitOctets(s)| == 2 * |s|
    ensures UnitOf(UnitOctets(s)[2 * i], UnitOctets(s)[2 * i + 1]) == s[i]
    decreases |s|
  {
    if |s| == 1 {
      assert UnitOctets(s[1..]) == [];
    } else if i == 0 {
      UnitOctetsAt(s[1..], 0);
    } else {
      UnitOctetsAt(s[1..], i - 1);
    }
  }

  /** Two octets for each UTF-16 unit, the high one first. */
  lemma PasswordIsUnits(password: Bytes)
    requires PasswordBytes(password).Some?
    ensures Decode(password).Some?
    ensures var p, units := PasswordBytes(password).value, Decode(password).value;
      |p| == 2 * |units| && forall i :: 0 <= i < |units| ==> UnitOf(p[2 * i], p[2 * i + 1]) == units[i]
  {
    hide UnitOctets;
    var p, units := PasswordBytes(password).value, Decode(password).value;
    NoUnits();
    if units != [] { UnitOctetsAt(units, 0); }
    forall i | 0 <= i < |units| ensures UnitOf(p[2 * i], p[2 * i + 1]) == units[i] {
      UnitOctetsAt(units, i);
    }
  }

  lemma NoUnits()
    ensures UnitOctets([]) == []
  {
  }

  // ---- The key stream ---------------------------------------------------------------------------

  /** Where block k of a stream ends. */
  function BlockEnd(n: nat, k: nat): (e: nat)
    requires 20 * k <= n
    ensures 20 * k <= e <= n
  {
    if n < 20 * k + 20 then n else 20 * k + 20
  }

  /** Block k is the digest of the password and the block before it, or the salt; the last block may be cut. */
  predicate BlockOk(stream: Bytes, password: Bytes, salt: Bytes, k: nat)
    requires 20 * k <= |stream|
  {
    var previous := if k == 0 then salt else stream[20 * (k - 1)..20 * k];
    var e := BlockEnd(|stream|, k);
    stream[20 * k..e] == Digest(password + previous)[..e - 20 * k]
  }

  predicate Chained(stream: Bytes, password: Bytes, salt: Bytes) {
    forall k :: 0 <= k < |stream| && 20 * k < |stream| ==> BlockOk(stream, password, salt, k)
  }

  lemma {:induction false} StreamBlock(password: Bytes, salt: Bytes, n: nat, k: nat)
    requires 20 * k < n
    ensures BlockOk(KeyStream(password, salt, n), password, salt, k)
    decreases k
  {
    hide Digest;
    var d := Digest(password + salt);
    if k > 0 {
      var stream, rest := KeyStream(password, salt, n), KeyStream(password, d, n - 20);
      assert stream == d + rest;
      StreamBlock(password, d, n - 20, k - 1);
      hide KeyStream;
      BlockShifts(stream, rest, password, salt, k);
    }
  }

  lemma BlockShifts(stream: Bytes, rest: Bytes, password: Bytes, salt: Bytes, k: nat)
    requires k > 0 && 20 * k <= |stream| && stream == Digest(password + salt) + rest
    ensures BlockOk(rest, password, Digest(password + salt), k - 1) <==> BlockOk(stream, password, salt, k)
  {
    hide Digest;
    var d, e := Digest(password + salt), BlockEnd(|stream|, k);
    SliceShifts(d, rest, 20 * k - 20, e - 20);
    if k == 1 {
      assert stream[0..20] == d;
    } else {
      SliceShifts(d, rest, 20 * k - 40, 20 * k - 20);
    }
  }

  lemma SliceShifts(d: Bytes, rest: Bytes, a: nat, b: nat)
    requires |d| == 20 && a <= b <= |rest|
    ensures (d + rest)[20 + a..20 + b] == rest[a..b]
  {
  }

  /** The stream is chained, and no other stream of its length is. */
  lemma StreamIsChained(password: Bytes, salt: Bytes, n: nat)
    ensures Chained(KeyStream(password, salt, n), password, salt)
  {
    hide KeyStream, BlockOk;
    forall k | 0 <= k < n && 20 * k < n ensures BlockOk(KeyStream(password, salt, n), password, salt, k) {
      StreamBlock(password, salt, n, k);
    }
  }

  lemma {:induction false} ChainedIsStream(stream: Bytes, password: Bytes, salt: Bytes)
    requires Chained(stream, password, salt)
    ensures stream == KeyStream(password, salt, |stream|)
    decreases |stream|
  {
    hide Digest;
    var d := Digest(password + salt);
    if stream != [] {
      assert BlockOk(stream, password, salt, 0);
      if |stream| <= 20 {
        assert stream[0..|stream|] == stream && d[..|stream|] + [] == d[..|stream|];
      } else {
        var rest := stream[20..];
        assert stream[0..20] == d && stream == d + rest;
        forall k | 0 <= k < |rest| && 20 * k < |rest| ensures BlockOk(rest, password, d, k) {
          assert BlockOk(stream, password, salt, k + 1);
          BlockShifts(stream, rest, password, salt, k + 1);
        }
        ChainedIsStream(rest, password, d);
      }
    }
  }

  // ---- The exclusive or -------------------------------------------------------------------------

  /** Bit j of a number. */
  function Bit(n: nat, j: nat): (b: nat) { if j == 0 then n % 2 else Bit(n / 2, j - 1) }

  lemma {:induction false} XorBitsAt(a: nat, b: nat, k: nat, j: nat)
    requires j < k
    ensures Bit(XorBits(a, b, k), j) == (Bit(a, j) + Bit(b, j)) % 2
  {
    LastBit(a, b, XorBits(a / 2, b / 2, k - 1));
    if j == 0 {
      ParityAdds(a, b, XorBits(a / 2, b / 2, k - 1));
    } else {
      XorBitsAt(a / 2, b / 2, k - 1, j - 1);
    }
  }

  lemma ParityAdds(a: nat, b: nat, y: nat)
    ensures ((a + b) % 2 + 2 * y) % 2 == (a % 2 + b % 2) % 2
  {
  }

  lemma {:induction false} BitsDecide(a: nat, b: nat, k: nat)
    requires a < Pow2(k) && b < Pow2(k) && forall j :: 0 <= j < k ==> Bit(a, j) == Bit(b, j)
    ensures a == b
  {
    if k > 0 {
      forall j | 0 <= j < k - 1 ensures Bit(a / 2, j) == Bit(b / 2, j) { assert Bit(a, j + 1) == Bit(b, j + 1); }
      BitsDecide(a / 2, b / 2, k - 1);
      assert Bit(a, 0) == Bit(b, 0);
    }
  }

  /** The octet whose bits differ from those of `a` exactly where `b` has ones. */
  predicate IsXor(r: Byte, a: Byte, b: Byte) {
    forall j :: 0 <= j < 8 ==> Bit(r, j) == (Bit(a, j) + Bit(b, j)) % 2
  }

  lemma XorIs(r: Byte, a: Byte, b: Byte)
    ensures r == Xor(a, b) <==> IsXor(r, a, b)
  {
    hide Bit, XorBits, Pow2;
    EightBits();
    forall j | 0 <= j < 8 ensures Bit(Xor(a, b), j) == (Bit(a, j) + Bit(b, j)) % 2 { XorBitsAt(a, b, 8, j); }
    if IsXor(r, a, b) { BitsDecide(r, Xor(a, b), 8); }
  }

  // ---- The key ----------------------------------------------------------------------------------

  predicate AllXor(r: Bytes, a: Bytes, b: Bytes) {
    |r| == |a| == |b| && forall i :: 0 <= i < |r| ==> IsXor(r[i], a[i], b[i])
  }

  lemma XorAllIs(r: Bytes, a: Bytes, b: Bytes)
    requires |a| == |b|
    ensures r == XorAll(a, b) <==> AllXor(r, a, b)
  {
    hide Xor, IsXor;
    if |r| == |a| {
      forall i | 0 <= i < |r| ensures r[i] == Xor(a[i], b[i]) <==> IsXor(r[i], a[i], b[i]) { XorIs(r[i], a[i], b[i]); }
    }
  }

  /** A key is recovered exactly when it is the exclusive or of the middle of the payload and the chained digests from
      the salt in front, and the payload ends in the digest of the password and that key. */
  lemma RecoveredIff(w: WordSize, data: Bytes, password: Bytes, stream: Bytes, key: Bytes)
    requires password != [] && PasswordBytes(password).Some? && Payload(w, data).Some?
    requires var payload := Payload(w, data).value;
      |payload| == 40 + |stream| && Chained(stream, PasswordBytes(password).value, payload[..20])
    ensures var payload, p := Payload(w, data).value, PasswordBytes(password).value;
      Recover(w, data, password) == Some(key) <==>
        && AllXor(key, payload[20..20 + |stream|], stream)
        && payload[20 + |stream|..] == Digest(p + key)
  {
    hide Payload, PasswordBytes, Digest, KeyStream, XorAll, Chained, AllXor;
    var payload, p := Payload(w, data).value, PasswordBytes(password).value;
    ChainedIsStream(stream, p, payload[..20]);
    XorAllIs(key, payload[20..20 + |stream|], stream);
  }

  /** Nothing is recovered without a password, from a password that is not UTF-8, or from less than salt and digest. */
  lemma NotRecovered(w: WordSize, data: Bytes, password: Bytes)
    requires password == [] || Decode(password).None? || Payload(w, data).None? || |Payload(w, data).value| < 40
    ensures Recover(w, data, password) == None
  {
    hide Decode, Payload;
  }
}
