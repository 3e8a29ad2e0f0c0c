/**
 Java's modified UTF-8 (src/lib/core/KeyParsers.cpp:130-191), the form a keystore's strings have: every UTF-16 unit is
 written by itself, and zero takes two octets. The decoder accepts exactly what java.io.DataOutput.writeUTF writes.
 */
module JavaUtf {
  import opened ByteStrings
  import opened Utf

  /** The payload of a continuation octet. */
  function Bits(c: Byte): (r: nat) { c % 0x40 }

  /** One turn of the decoder's loop: a unit and the octets it took. */
  function ReadUnit(src: Bytes): (r: Option<Read>)
    requires src != []
    ensures r.Some? ==> 1 <= r.value.size <= |src| && r.value.cp < 0x1_0000
  {
    var lead: int := src[0];
    if lead / 0x80 == 0 then
      if lead == 0 then None else Some(Read(lead, 1))
    else if lead / 0x20 == 6 then
      if |src| < 2 || !IsContinuation(src[1]) then None else
        var value := lead % 0x20 * 0x40 + Bits(src[1]);
        if value != 0 && value < 0x80 then None else Some(Read(value, 2))
    else if lead / 0x10 == 14 then
      if |src| < 3 || !IsContinuation(src[1]) || !IsContinuation(src[2]) then None else
        var value := lead % 0x10 * 0x1000 + Bits(src[1]) * 0x40 + Bits(src[2]);
        if value < 0x800 then None else Some(Read(value, 3))
    else None
  }

  function DecodeModified(src: Bytes): (r: Option<seq<Unit>>)
    decreases |src|
  {
    if src == [] then Some([]) else
      match ReadUnit(src)
      case None => None
      case Some(c) => Prepend([c.cp], DecodeModified(src[c.size..]))
  }

  method DecodeJavaModifiedUtf8(src: Bytes) returns (ok: bool, out: seq<Unit>)
    ensures ok <==> DecodeModified(src).Some?
    ensures ok ==> DecodeModified(src) == Some(out)
  {
    hide ReadUnit;
    ok, out := false, [];
    var off := 0;
    PrependNothing(src);
    while off < |src|
      invariant 0 <= off <= |src| && Prepend(out, DecodeModified(src[off..])) == DecodeModified(src)
    {
      var c := ReadUnit(src[off..]);
      if c.None? { return; }
      assert src[off..][c.value.size..] == src[off + c.value.size..];
      PrependTwice(out, [c.value.cp], DecodeModified(src[off + c.value.size..]));
      out, off := out + [c.value.cp], off + c.value.size;
    }
    ok := true;
    assert out + [] == out;
  }

  // ---- The writer -------------------------------------------------------------------------------

  function WriteUnit(u: Unit): (r: Bytes)
    ensures 1 <= |r| <= 3
  {
    if 1 <= u < 0x80 then [u]
    else if u < 0x800 then [0xC0 + u / 0x40, 0x80 + u % 0x40]
    else [0xE0 + u / 0x1000, 0x80 + u / 0x40 % 0x40, 0x80 + u % 0x40]
  }

  function EncodeModified(s: seq<Unit>): (r: Bytes) {
    if s == [] then [] else WriteUnit(s[0]) + EncodeModified(s[1..])
  }

  lemma ReadWritten(u: Unit, rest: Bytes)
    ensures ReadUnit(WriteUnit(u) + rest) == Some(Read(u, |WriteUnit(u)|))
  {
    var w := WriteUnit(u);
    var s := w + rest;
    assert s[0] == w[0];
    if |w| > 1 { assert s[1] == w[1] && IsContinuation(w[1]); }
    if |w| > 2 { assert s[2] == w[2] && IsContinuation(w[2]); ThreeParts(u); }
  }

  lemma ThreeParts(u: Unit)
    ensures u / 0x1000 < 16 && u / 0x1000 * 0x1000 + u / 0x40 % 0x40 * 0x40 + u % 0x40 == u
  {
    assert u / 0x1000 == u / 0x40 / 0x40;
  }

  lemma WriteRead(src: Bytes)
    requires src != [] && ReadUnit(src).Some?
    ensures var c := ReadUnit(src).value; WriteUnit(c.cp) == src[..c.size]
  {
    var c := ReadUnit(src).value;
    var lead := src[0];
    if c.size == 2 {
      TwoOctets(lead, src[1]);
      assert src[..2] == [src[0], src[1]];
    } else if c.size == 3 {
      ThreeOctets(lead, src[1], src[2]);
      assert src[..3] == [src[0], src[1], src[2]];
    }
  }

  lemma TwoOctets(a: int, b: Byte)
    requires a / 0x20 == 6 && IsContinuation(b)
    ensures var u := a % 0x20 * 0x40 + Bits(b); u < 0x800 && 0xC0 + u / 0x40 == a && 0x80 + u % 0x40 == b
  {
  }

  lemma ThreeOctets(a: int, b: Byte, c: Byte)
    requires a / 0x10 == 14 && IsContinuation(b) && IsContinuation(c)
    ensures var u := a % 0x10 * 0x1000 + Bits(b) * 0x40 + Bits(c);
      u < 0x1_0000 && 0xE0 + u / 0x1000 == a && 0x80 + u / 0x40 % 0x40 == b && 0x80 + u % 0x40 == c
  {
    var x, y, z := a % 0x10, Bits(b), Bits(c);
    var u := x * 0x1000 + y * 0x40 + z;
    assert u / 0x40 == x * 0x40 + y;
    assert u / 0x1000 == u / 0x40 / 0x40;
  }

  /** Whatever is written is read back. */
  lemma {:induction false} WrittenIsRead(s: seq<Unit>)
    ensures DecodeModified(EncodeModified(s)) == Some(s)
  {
    hide ReadUnit, WriteUnit;
    if s != [] {
      var rest := EncodeModified(s[1..]);
      ReadWritten(s[0], rest);
      var e := WriteUnit(s[0]) + rest;
      assert e[|WriteUnit(s[0])|..] == rest;
      WrittenIsRead(s[1..]);
      assert s == [s[0]] + s[1..];
    }
  }

  /** Whatever is accepted is what the writer writes: there is one form for each string. */
  lemma {:induction false} ReadIsWritten(src: Bytes)
    requires DecodeModified(src).Some?
    ensures EncodeModified(DecodeModified(src).value) == src
    decreases |src|
  {
    hide ReadUnit, WriteUnit;
    if src != [] {
      var c := ReadUnit(src).value;
      WriteRead(src);
      ReadIsWritten(src[c.size..]);
      var rest := DecodeModified(src[c.size..]).value;
      assert ([c.cp] + rest)[1..] == rest;
      assert src == src[..c.size] + src[c.size..];
    }
  }
}
