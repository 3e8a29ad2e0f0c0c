/**
 Octet strings, and the one vocabulary every format proof in the project is written in:
 a piece of text lies `At` an offset of a larger buffer.
 */
module ByteStrings {

  type Byte = b: int | 0 <= b < 256
  type Bytes = seq<Byte>

  datatype Option<+T> = None | Some(value: T) {
    predicate IsFailure() { None? }

    function PropagateFailure<U>(): (r: Option<U>)
      requires None?
    {
      None
    }

    function Extract(): (r: T)
      requires Some?
    {
      value
    }
  }

  /** The octets of an ASCII literal. */
  function Ascii(s: string): (r: Bytes)
    ensures |r| == |s|
  {
    seq(|s|, i requires 0 <= i < |s| => s[i] as int % 256)
  }

  function Fill(n: nat, x: Byte): (r: Bytes)
    ensures |r| == n && forall i :: 0 <= i < n ==> r[i] == x
  {
    seq(n, _ => x)
  }

  /** `piece` occupies `data` from offset `off` on. */
  predicate At<T(==)>(data: seq<T>, off: int, piece: seq<T>) {
    0 <= off && off + |piece| <= |data| && data[off..off + |piece|] == piece
  }

  lemma AtBounds<T>(data: seq<T>, off: int, piece: seq<T>)
    requires At(data, off, piece)
    ensures 0 <= off && off + |piece| <= |data|
  {
  }

  lemma AtIndex<T>(data: seq<T>, off: int, piece: seq<T>, i: nat)
    requires At(data, off, piece) && i < |piece|
    ensures 0 <= off + i < |data| && data[off + i] == piece[i]
  {
    assert data[off..off + |piece|][i] == piece[i];
  }

  lemma AtSplit<T>(data: seq<T>, off: int, a: seq<T>, b: seq<T>)
    requires At(data, off, a + b)
    ensures At(data, off, a) && At(data, off + |a|, b)
  {
    var s := data[off..off + |a + b|];
    assert data[off..off + |a|] == s[..|a|] == a;
    assert data[off + |a|..off + |a| + |b|] == s[|a|..] == b;
  }

  lemma AtCons<T>(data: seq<T>, off: int, x: T, rest: seq<T>)
    requires At(data, off, [x] + rest)
    ensures 0 <= off < |data| && data[off] == x && At(data, off + 1, rest)
  {
    AtSplit(data, off, [x], rest);
    AtIndex(data, off, [x], 0);
  }

  lemma AtSplit3<T>(data: seq<T>, off: int, a: seq<T>, b: seq<T>, c: seq<T>)
    requires At(data, off, a + b + c)
    ensures At(data, off, a) && At(data, off + |a|, b) && At(data, off + |a| + |b|, c)
  {
    AtSplit(data, off, a + b, c);
    AtSplit(data, off, a, b);
  }

  lemma AtSplit4<T>(data: seq<T>, off: int, a: seq<T>, b: seq<T>, c: seq<T>, d: seq<T>)
    requires At(data, off, a + b + c + d)
    ensures At(data, off, a) && At(data, off + |a|, b) && At(data, off + |a| + |b|, c)
    ensures At(data, off + |a| + |b| + |c|, d)
  {
    AtSplit(data, off, a + b + c, d);
    AtSplit3(data, off, a, b, c);
  }

  lemma AtJoin<T>(data: seq<T>, off: int, a: seq<T>, b: seq<T>)
    requires At(data, off, a) && At(data, off + |a|, b)
    ensures At(data, off, a + b)
  {
    assert data[off..off + |a + b|] == data[off..off + |a|] + data[off + |a|..off + |a| + |b|];
  }

  /** A piece of a piece. */
  lemma AtTrans<T>(data: seq<T>, off: int, mid: seq<T>, inner: int, piece: seq<T>)
    requires At(data, off, mid) && At(mid, inner, piece)
    ensures At(data, off + inner, piece)
  {
    forall i | 0 <= i < |piece| ensures data[off + inner + i] == piece[i] {
      AtIndex(mid, inner, piece, i);
      AtIndex(data, off, mid, inner + i);
    }
  }

  lemma AtMiddle<T>(a: seq<T>, b: seq<T>, c: seq<T>)
    ensures At(a + b + c, |a|, b)
  {
  }

  lemma AtOne<T>(data: seq<T>, off: nat)
    requires off < |data|
    ensures At(data, off, [data[off]])
  {
    assert data[off..off + 1] == [data[off]];
  }

  lemma AtTwo<T>(data: seq<T>, off: nat)
    requires off + 1 < |data|
    ensures At(data, off, [data[off], data[off + 1]])
  {
    assert data[off..off + 2] == [data[off], data[off + 1]];
  }

  lemma AtSlice<T>(data: seq<T>, off: nat, piece: seq<T>)
    requires At(data, off, piece)
    ensures off + |piece| <= |data| && data[off..off + |piece|] == piece
  {
  }

  lemma Regroup<T>(a: seq<T>, b: seq<T>, c: seq<T>)
    ensures a + (b + c) == a + b + c
  {
  }

  lemma AtWhole<T>(data: seq<T>)
    ensures At(data, 0, data)
  {
    assert data[0..|data|] == data;
  }

  /** Overwriting in place, as std::copy into an existing vector does. */
  function Patch<T>(s: seq<T>, pos: nat, piece: seq<T>): (r: seq<T>)
    requires pos + |piece| <= |s|
    ensures |r| == |s|
    ensures r[..pos] == s[..pos] && r[pos..pos + |piece|] == piece && r[pos + |piece|..] == s[pos + |piece|..]
  {
    s[..pos] + piece + s[pos + |piece|..]
  }

  lemma PatchInside<T>(a: seq<T>, b: seq<T>, c: seq<T>, pos: nat, piece: seq<T>)
    requires pos + |piece| <= |b|
    ensures Patch(a + b + c, |a| + pos, piece) == a + Patch(b, pos, piece) + c
  {
    var s := a + b + c;
    assert s[..|a| + pos] == a + b[..pos];
    assert s[|a| + pos + |piece|..] == b[pos + |piece|..] + c;
  }

  /** std::string::find(pattern, from); -1 stands for npos. */
  function Find(s: Bytes, pat: Bytes, from: nat): (r: int)
    ensures r == -1 || (from <= r && At(s, r, pat))
    ensures forall i :: from <= i && (r == -1 || i < r) ==> !At(s, i, pat)
    decreases |s| - from
  {
    if from + |pat| > |s| then -1
    else if s[from..from + |pat|] == pat then from
    else Find(s, pat, from + 1)
  }

  /** A pattern cannot occur earlier when one of its octets does not. */
  lemma FindAt(s: Bytes, pat: Bytes, from: nat, q: nat, j: nat)
    requires At(s, q, pat) && from <= q && j < |pat|
    requires forall i :: from + j <= i < q + j ==> s[i] != pat[j]
    ensures Find(s, pat, from) == q
  {
    var r := Find(s, pat, from);
    assert r != -1 ==> At(s, r, pat);
    if r != -1 { AtIndex(s, r, pat, j); }
  }

  predicate Free(s: Bytes, c: Byte) { forall i :: 0 <= i < |s| ==> s[i] != c }

  /** std::string::rfind(pattern): the last occurrence; -1 stands for npos. */
  function RFind(s: Bytes, pat: Bytes, upto: nat): (r: int)
    requires upto <= |s|
    ensures r == -1 || (r <= upto && At(s, r, pat))
    ensures forall i :: r < i <= upto ==> !At(s, i, pat)
  {
    if At(s, upto, pat) then upto
    else if upto == 0 then -1
    else RFind(s, pat, upto - 1)
  }

  const SPACE: Bytes := [0x20]

  const UINT64_LIMIT: nat := 0x1_0000_0000_0000_0000

  /** C's isspace over the "C" locale. */
  predicate IsSpace(c: Byte) { c == 0x20 || 0x09 <= c <= 0x0D }

  lemma SpacesAre(c: Byte)
    ensures IsSpace(c) <==> c in {0x09, 0x0A, 0x0B, 0x0C, 0x0D, 0x20}
  {
  }

  predicate IsDigit(c: Byte) { 0x30 <= c <= 0x39 }

  /** A hexadecimal digit of either case. */
  function HexValue(c: Byte): (r: Option<nat>) {
    if 0x30 <= c <= 0x39 then Some(c - 0x30)
    else if 0x61 <= c <= 0x66 then Some(10 + c - 0x61)
    else if 0x41 <= c <= 0x46 then Some(10 + c - 0x41)
    else None
  }

  /** The end of the run of white space that starts at `pos`. */
  function SpacesEnd(s: Bytes, pos: nat): (e: nat)
    requires pos <= |s|
    ensures pos <= e <= |s|
    ensures forall i :: pos <= i < e ==> IsSpace(s[i])
    ensures e < |s| ==> !IsSpace(s[e])
    decreases |s| - pos
  {
    if pos < |s| && IsSpace(s[pos]) then SpacesEnd(s, pos + 1) else pos
  }
}
