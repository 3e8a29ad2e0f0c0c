/**
 Looking members up (src/lib/util/Json.cpp:296-434): the scan that stops at the first matching key, and the proof that
 on every well-formed document it is the lookup in the syntax tree, limited only by the depth of the values it skips.
 */
module JsonLookup {
  import opened ByteStrings
  import opened JsonScanner
  import opened JsonStrings
  import opened JsonNumbers
  import opened JsonGrammar

  // ---- The scan ---------------------------------------------------------------------------------

  /** The loop of FindJsonMemberValue: the offset of the value of the first member called `key`. */
  function FindLoop(json: Bytes, key: Bytes, off: nat, depth: nat): (r: Option<nat>)
    requires off <= |json|
    ensures r.Some? ==> off < r.value <= |json|
    decreases |json| - off
  {
    match KeyEnd(json, off)
    case None => None
    case Some(q) =>
      if String(json, off).value.text == key then Some(q) else
        match Skip(json, q, depth)
        case None => None
        case Some(e) =>
          var p := SpacesEnd(json, e);
          if p == |json| || json[p] != 0x2C then None else FindLoop(json, key, SpacesEnd(json, p + 1), depth)
  }

  function FindMember(json: Bytes, key: Bytes, off: nat, depth: nat): (r: Option<nat>)
    requires off <= |json|
    ensures r.Some? ==> off < r.value <= |json|
  {
    var p := SpacesEnd(json, off);
    if p == |json| || json[p] != 0x7B then None else
      var q := SpacesEnd(json, p + 1);
      if q < |json| && json[q] == 0x7D then None else FindLoop(json, key, q, depth)
  }

  /** FindJsonPathValue from an offset on; the first key is looked up in an object at nesting level `depth`. */
  function FindPath(json: Bytes, path: seq<Bytes>, off: nat, depth: nat): (r: Option<nat>)
    requires off <= |json|
    ensures r.Some? ==> off <= r.value <= |json|
    decreases |path|
  {
    if path == [] then Some(off) else
      match FindMember(json, path[0], off, depth)
      case None => None
      case Some(next) => FindPath(json, path[1..], next, depth + 1)
  }

  function ExtractString(json: Bytes, path: seq<Bytes>): (r: Option<Bytes>) {
    if path == [] then None else
      match FindPath(json, path, 0, 1)
      case None => None
      case Some(off) => match String(json, off) case None => None case Some(s) => Some(s.text)
  }

  predicate Terminated(json: Bytes, e: nat) {
    e >= |json| || json[e] == 0x2C || json[e] == 0x7D || json[e] == 0x5D || IsSpace(json[e])
  }

  function ReadBool(json: Bytes, off: nat): (r: Option<bool>) {
    if At(json, off, TRUE) && Terminated(json, off + 4) then Some(true)
    else if At(json, off, FALSE) && Terminated(json, off + 5) then Some(false)
    else None
  }

  function ExtractBool(json: Bytes, path: seq<Bytes>): (r: Option<bool>) {
    if path == [] then None else
      match FindPath(json, path, 0, 1) case None => None case Some(off) => ReadBool(json, off)
  }

  /** One turn of the loop: it decides the search, or moves on to the next member. */
  method FindTurn(json: Bytes, key: Bytes, start: nat, depth: nat) returns (r: Option<nat>, decided: bool, next: nat)
    requires start < |json|
    ensures decided ==> r == FindLoop(json, key, start, depth)
    ensures !decided ==> start < next <= |json| && FindLoop(json, key, next, depth) == FindLoop(json, key, start, depth)
  {
    hide Skip, SpacesEnd, String;
    r, decided, next := None, true, start;
    var ok, current;
    ok, next, current := ParseJsonString(json, next);
    if !ok { return; }
    next := SkipJsonWhitespace(json, next);
    if next >= |json| || json[next] != 0x3A { return; }
    next := SkipJsonWhitespace(json, next + 1);
    assert KeyEnd(json, start) == Some(next);
    hide KeyEnd;
    if current == key { return Some(next), true, next; }
    ok, next := SkipJsonValue(json, next, depth);
    if !ok { return; }
    next := SkipJsonWhitespace(json, next);
    if next >= |json| || json[next] == 0x7D || json[next] != 0x2C { return; }
    next := SkipJsonWhitespace(json, next + 1);
    decided := false;
  }

  method FindJsonMemberValue(json: Bytes, key: Bytes, start: nat, depth: nat) returns (r: Option<nat>)
    requires start <= |json|
    ensures r == FindMember(json, key, start, depth)
  {
    var off := SkipJsonWhitespace(json, start);
    if off >= |json| || json[off] != 0x7B { return None; }
    off := SkipJsonWhitespace(json, off + 1);
    if off < |json| && json[off] == 0x7D { return None; }
    ghost var first := off;
    hide FindLoop, SpacesEnd;
    while off < |json|
      invariant off <= |json| && FindLoop(json, key, off, depth) == FindLoop(json, key, first, depth)
    {
      var decided;
      r, decided, off := FindTurn(json, key, off, depth);
      if decided { return; }
    }
    r := None;
    NothingAtEnd(json, key, depth);
  }

  lemma NothingAtEnd(json: Bytes, key: Bytes, depth: nat)
    ensures FindLoop(json, key, |json|, depth) == None
  {
  }

  method FindJsonPathValue(json: Bytes, path: seq<Bytes>) returns (r: Option<nat>)
    ensures r == if path == [] then None else FindPath(json, path, 0, 1)
  {
    hide FindMember;
    if path == [] { return None; }
    var off: nat, i: nat := 0, 0;
    assert path[0..] == path;
    while i < |path|
      invariant 0 <= i <= |path| && off <= |json| && FindPath(json, path[i..], off, i + 1) == FindPath(json, path, 0, 1)
    {
      var next := FindJsonMemberValue(json, path[i], off, i + 1);
      if next.None? { return None; }
      assert path[i..][1..] == path[i + 1..];
      off, i := next.value, i + 1;
    }
    r := Some(off);
  }

  method ExtractJsonStringPath(json: Bytes, path: seq<Bytes>) returns (r: Option<Bytes>)
    ensures r == ExtractString(json, path)
  {
    hide FindPath;
    var off := FindJsonPathValue(json, path);
    if off.None? { return None; }
    var ok, next, out := ParseJsonString(json, off.value);
    r := if ok then Some(out) else None;
  }

  method ExtractJsonBoolPath(json: Bytes, path: seq<Bytes>) returns (r: Option<bool>)
    ensures r == ExtractBool(json, path)
  {
    hide FindPath;
    var off := FindJsonPathValue(json, path);
    r := if off.None? then None else ReadBool(json, off.value);
  }

  // ---- The lookup in the tree -------------------------------------------------------------------

  predicate Named(k: Key, key: Bytes) { k.Key? && ItemsOk(k.items) && Meaning(k.items) == key }

  /** The value of the first member called `key`, unless a member before it is too deep to be skipped. */
  function Lookup(l: List, key: Bytes, depth: nat): (r: Option<Value>) {
    if Named(l.key, key) then Some(l.value)
    else if l.One? || !Within(Depth(l.value), depth) then None
    else Lookup(l.rest, key, depth)
  }

  function MemberOf(v: Value, key: Bytes, depth: nat): (r: Option<Value>) {
    if v.Group? && v.keyed then Lookup(v.list, key, depth) else None
  }

  function Follow(v: Value, path: seq<Bytes>, depth: nat): (r: Option<Value>)
    decreases |path|
  {
    if path == [] then Some(v) else
      match MemberOf(v, path[0], depth) case None => None case Some(w) => Follow(w, path[1..], depth + 1)
  }

  // ---- Values that are nested too deep are refused ------------------------------------------------

  lemma {:induction false} ValueTooDeep(json: Bytes, off: nat, v: Value, enclosing: nat)
    requires Ok(v) && At(json, off, ValueText(v)) && !Within(Depth(v), enclosing)
    ensures off <= |json| && Skip(json, off, enclosing).None?
    decreases v
  {
    hide At, Spaces, ListText, ListOk, Skip, ListDepth, Members, ValueText;
    AtBounds(json, off, ValueText(v));
    CompositeStarts(json, off, v);
    SkipOpens(json, off, v.keyed, enclosing);
    if v.Group? && enclosing < MAX_DEPTH {
      GroupParts(json, off, v);
      ListTooDeep(json, off + 1 + |v.gap|, v.keyed, v.list, enclosing + 1);
      GroupAccepts(json, off, v.keyed, v.gap, enclosing);
    }
  }

  lemma CompositeStarts(json: Bytes, off: nat, v: Value)
    requires At(json, off, ValueText(v)) && Depth(v) > 0
    ensures off < |json| && json[off] == Opener(v.keyed)
  {
    AtIndex(json, off, ValueText(v), 0);
  }

  lemma {:induction false} ListTooDeep(json: Bytes, off: nat, keyed: bool, l: List, depth: nat)
    requires ListOk(keyed, l) && At(json, off, ListText(l)) && At(json, off + |ListText(l)|, [Closer(keyed)])
    requires depth + ListDepth(l) > MAX_DEPTH >= depth
    ensures off < |json| && !IsSpace(json[off]) && json[off] != Closer(keyed)
    ensures Members(json, off, keyed, depth).None?
    decreases l
  {
    hide At, Spaces, SpacesEnd, Skip, KeyText, KeyOk, ValueText, Ok, Members, ValueStops, ListText, Depth;
    ListReads(json, off, keyed, l);
    var s := off + |KeyText(l.key)|;
    var p := s + |ValueText(l.value)| + |l.after|;
    if Within(Depth(l.value), depth) {
      ValueAccepts(json, s, l.value, depth);
      MemberAccepts(json, off, keyed, l.key, |ValueText(l.value)|, l.after, depth);
      ListTooDeep(json, p + 1 + |l.gap|, keyed, l.rest, depth);
      SpacesThenByte(json, p + 1, l.gap);
    } else {
      ValueTooDeep(json, s, l.value, depth);
      MemberRefused(json, off, keyed, l.key, depth);
    }
  }

  /** A list, taken apart as the scan meets it. */
  lemma ListReads(json: Bytes, off: nat, keyed: bool, l: List)
    requires ListOk(keyed, l) && At(json, off, ListText(l)) && At(json, off + |ListText(l)|, [Closer(keyed)])
    ensures var s := off + |KeyText(l.key)|; var e := s + |ValueText(l.value)|; var p := e + |l.after|;
      && KeyOk(keyed, l.key) && Ok(l.value) && Spaces(l.after) && ValueStops(l.value, json, e)
      && At(json, off, KeyText(l.key)) && At(json, s, ValueText(l.value)) && At(json, e, l.after) && p < |json|
      && off < |json| && !IsSpace(json[off]) && json[off] != Closer(keyed)
      && s < |json| && !IsSpace(json[s])
      && (l.One? ==> json[p] == Closer(keyed) && |ListText(l)| == p - off)
      && (l.More? ==>
        && json[p] == 0x2C && At(json, p + 1, l.gap) && At(json, p + 1 + |l.gap|, ListText(l.rest))
        && |ListText(l)| == p - off + 1 + |l.gap| + |ListText(l.rest)|)
  {
    hide At, Spaces, KeyText, KeyOk, ValueText, Ok, ValueStops, ListText;
    ListParts(json, off, keyed, l);
    StopsBefore(json, l.value, off + |KeyText(l.key)| + |ValueText(l.value)|, l.after);
    ListStarts(json, off, keyed, l.key, l.value);
  }

  lemma MemberRefused(json: Bytes, off: nat, keyed: bool, k: Key, depth: nat)
    requires KeyOk(keyed, k) && At(json, off, KeyText(k))
    requires off + |KeyText(k)| < |json| && !IsSpace(json[off + |KeyText(k)|])
    requires Skip(json, off + |KeyText(k)|, depth).None?
    ensures off <= |json| && Members(json, off, keyed, depth).None?
  {
    hide At, SpacesEnd, Skip, KeyEnd, KeyText, KeyOk;
    KeyIsRead(json, off, keyed, k);
  }

  // ---- The scan is the lookup -------------------------------------------------------------------

  /** `v` is a value of the document, at `o`, and is followed as a member's value is. */
  predicate Found(json: Bytes, o: nat, v: Value) {
    && Ok(v) && At(json, o, ValueText(v)) && o < |json| && !IsSpace(json[o])
    && o + |ValueText(v)| < |json| && Terminated(json, o + |ValueText(v)|)
  }

  lemma AfterValue(json: Bytes, e: nat, after: Bytes, keyed: bool)
    requires At(json, e, after) && Spaces(after) && e + |after| < |json|
    requires json[e + |after|] == 0x2C || json[e + |after|] == Closer(keyed)
    ensures e < |json| && Terminated(json, e)
  {
    if after != [] { AtIndex(json, e, after, 0); }
  }

  lemma FindsKey(json: Bytes, off: nat, k: Key)
    requires KeyOk(true, k) && At(json, off, KeyText(k))
    requires off + |KeyText(k)| < |json| && !IsSpace(json[off + |KeyText(k)|])
    ensures KeyEnd(json, off) == Some(off + |KeyText(k)|)
    ensures forall key :: Named(k, key) <==> String(json, off).value.text == key
  {
    hide At, KeyText, String, KeyEnd, Meaning;
    KeyAccepts(json, off, k);
  }

  /** The search on a list goes on past a member with another name. */
  lemma FindGoesOn(json: Bytes, key: Bytes, off: nat, depth: nat, q: nat, e: nat)
    requires off < |json| && KeyEnd(json, off) == Some(q) && String(json, off).value.text != key
    requires Skip(json, q, depth) == Some(e)
    ensures FindLoop(json, key, off, depth) ==
      var p := SpacesEnd(json, e);
      if p == |json| || json[p] != 0x2C then None else FindLoop(json, key, SpacesEnd(json, p + 1), depth)
  {
    hide Skip, SpacesEnd, KeyEnd, String;
  }

  lemma {:induction false} FindLoopIsLookup(json: Bytes, off: nat, l: List, key: Bytes, depth: nat)
    requires ListOk(true, l) && At(json, off, ListText(l)) && At(json, off + |ListText(l)|, [Closer(true)])
    ensures off <= |json|
    ensures match Lookup(l, key, depth)
      case None => FindLoop(json, key, off, depth).None?
      case Some(v) => FindLoop(json, key, off, depth).Some? && Found(json, FindLoop(json, key, off, depth).value, v)
    decreases l
  {
    hide At, Spaces, SpacesEnd, Skip, KeyText, KeyOk, ValueText, Ok, ValueStops, ListText, ListOk, Depth, KeyEnd,
         String, Named, FindLoop, Within, Terminated;
    ListReads(json, off, true, l);
    var s := off + |KeyText(l.key)|;
    var e := s + |ValueText(l.value)|;
    var p := e + |l.after|;
    FindsKey(json, off, l.key);
    AfterValue(json, e, l.after, true);
    if Named(l.key, key) {
      FindStops(json, key, off, depth, s);
    } else if !Within(Depth(l.value), depth) {
      ValueTooDeep(json, s, l.value, depth);
      FindFails(json, key, off, depth, s);
    } else {
      ValueAccepts(json, s, l.value, depth);
      FindGoesOn(json, key, off, depth, s, e);
      SpacesBeforeMark(json, e, l.after, true);
      if l.More? {
        RestIsList(l);
        FindLoopIsLookup(json, p + 1 + |l.gap|, l.rest, key, depth);
        ListReads(json, p + 1 + |l.gap|, true, l.rest);
        SpacesThenByte(json, p + 1, l.gap);
      }
    }
  }

  lemma RestIsList(l: List)
    requires l.More? && ListOk(true, l)
    ensures ListOk(true, l.rest) && Spaces(l.gap)
  {
  }

  lemma SpacesBeforeMark(json: Bytes, e: nat, after: Bytes, keyed: bool)
    requires At(json, e, after) && Spaces(after) && e + |after| < |json|
    requires json[e + |after|] == 0x2C || json[e + |after|] == Closer(keyed)
    ensures e <= |json| && SpacesEnd(json, e) == e + |after|
  {
    hide At, SpacesEnd, Spaces;
    SpacesThenByte(json, e, after);
  }

  lemma FindStops(json: Bytes, key: Bytes, off: nat, depth: nat, q: nat)
    requires off < |json| && KeyEnd(json, off) == Some(q) && String(json, off).value.text == key
    ensures FindLoop(json, key, off, depth) == Some(q)
  {
    hide Skip, SpacesEnd, KeyEnd, String;
  }

  lemma FindFails(json: Bytes, key: Bytes, off: nat, depth: nat, q: nat)
    requires off < |json| && KeyEnd(json, off) == Some(q) && String(json, off).value.text != key
    requires Skip(json, q, depth).None?
    ensures FindLoop(json, key, off, depth) == None
  {
    hide Skip, SpacesEnd, KeyEnd, String;
  }

  /** Where the search in an object that has members starts. */
  lemma FindsFirst(json: Bytes, off: nat, v: Value, key: Bytes, depth: nat) returns (q: nat)
    requires off <= |json| && Ok(v) && At(json, SpacesEnd(json, off), ValueText(v)) && v.Group? && v.keyed
    ensures At(json, q, ListText(v.list)) && At(json, q + |ListText(v.list)|, [Closer(true)]) && ListOk(true, v.list)
    ensures q <= |json| && FindMember(json, key, off, depth) == FindLoop(json, key, q, depth)
  {
    hide At, Spaces, SpacesEnd, ListText, ValueText, FindLoop, ListOk;
    var p := SpacesEnd(json, off);
    CompositeStarts(json, p, v);
    GroupParts(json, p, v);
    q := p + 1 + |v.gap|;
    ListBegins(json, q, v.list);
    SpacesThenByte(json, p + 1, v.gap);
  }

  lemma ListBegins(json: Bytes, off: nat, l: List)
    requires ListOk(true, l) && At(json, off, ListText(l)) && At(json, off + |ListText(l)|, [Closer(true)])
    ensures off < |json| && !IsSpace(json[off]) && json[off] != Closer(true)
  {
    hide At, Spaces, KeyText, KeyOk, ValueText, Ok, ValueStops, ListText, ListOk, IsSpace;
    ListReads(json, off, true, l);
  }

  /** An object, or another value, at the offset a lookup starts from. */
  lemma FindMemberIsLookup(json: Bytes, off: nat, v: Value, key: Bytes, depth: nat)
    requires off <= |json| && Ok(v) && At(json, SpacesEnd(json, off), ValueText(v))
    requires SpacesEnd(json, off) < |json|
    ensures match MemberOf(v, key, depth)
      case None => FindMember(json, key, off, depth).None?
      case Some(w) => FindMember(json, key, off, depth).Some? && Found(json, FindMember(json, key, off, depth).value, w)
  {
    hide At, Ok, SpacesEnd, ListText, ValueText, FindLoop, Lookup, Found, ListOk;
    if v.Group? && v.keyed {
      hide FindMember;
      var q := FindsFirst(json, off, v, key, depth);
      FindLoopIsLookup(json, q, v.list, key, depth);
    } else {
      var p := SpacesEnd(json, off);
      ObjectStarts(json, p, v);
      if v.Empty? { EmptyParts(json, p, v); }
    }
  }

  lemma EmptyParts(json: Bytes, off: nat, v: Value)
    requires v.Empty? && Ok(v) && At(json, off, ValueText(v))
    ensures off + 1 <= |json|
    ensures var p := SpacesEnd(json, off + 1); p < |json| && json[p] == Closer(v.keyed)
  {
    hide At, Spaces, SpacesEnd;
    AtSplit3(json, off, [Opener(v.keyed)], v.gap, [Closer(v.keyed)]);
    AtIndex(json, off + 1 + |v.gap|, [Closer(v.keyed)], 0);
    SpacesThenByte(json, off + 1, v.gap);
  }

  /** The first octet tells what a value is. */
  lemma ObjectStarts(json: Bytes, off: nat, v: Value)
    requires Ok(v) && At(json, off, ValueText(v)) && off < |json|
    ensures json[off] == 0x7B <==> Depth(v) > 0 && v.keyed
    ensures json[off] == QUOTE <==> v.Text?
    ensures v.Word? ==> At(json, off, v.w)
    ensures json[off] == 0x74 || json[off] == 0x66 ==> v == Word(TRUE) || v == Word(FALSE)
  {
    hide NumeralText, Body, ItemsOk, ListText, ListOk, NumeralOk;
    if v.Number? {
      NumeralStarts(json, off, v.n);
    } else {
      AtIndex(json, off, ValueText(v), 0);
    }
  }

  lemma NumeralStarts(json: Bytes, off: nat, n: Numeral)
    requires NumeralOk(n) && At(json, off, NumeralText(n))
    ensures off < |json| && (json[off] == 0x2D || IsDigit(json[off]))
  {
    hide At, FractionOk, ExponentOk;
    AtSplit4(json, off, n.sign, n.whole, n.fraction, n.exponent);
    AtIndex(json, off + |n.sign|, n.whole, 0);
    if n.sign != [] { AtIndex(json, off, n.sign, 0); }
  }

  lemma {:induction false} FindPathIsFollow(json: Bytes, off: nat, v: Value, path: seq<Bytes>, depth: nat)
    requires off <= |json| && Ok(v) && At(json, SpacesEnd(json, off), ValueText(v)) && path != []
    requires SpacesEnd(json, off) < |json|
    ensures match Follow(v, path, depth)
      case None => FindPath(json, path, off, depth).None?
      case Some(w) => FindPath(json, path, off, depth).Some? && Found(json, FindPath(json, path, off, depth).value, w)
    decreases |path|
  {
    hide At, ValueText, MemberOf, FindMember, Terminated, IsSpace;
    FindMemberIsLookup(json, off, v, path[0], depth);
    var w := MemberOf(v, path[0], depth);
    if w.Some? {
      var next := FindMember(json, path[0], off, depth).value;
      assert FindPath(json, path, off, depth) == FindPath(json, path[1..], next, depth + 1);
      assert Follow(v, path, depth) == Follow(w.value, path[1..], depth + 1);
      if path[1..] != [] {
        NoSpaces(json, next);
        FindPathIsFollow(json, next, w.value, path[1..], depth + 1);
      }
    }
  }

  lemma NoSpaces(json: Bytes, off: nat)
    requires off < |json| && !IsSpace(json[off])
    ensures SpacesEnd(json, off) == off
  {
  }

  // ---- The extractors ---------------------------------------------------------------------------

  /** A document: white space, a value, and anything after it. */
  predicate Document(json: Bytes, v: Value) {
    var p := SpacesEnd(json, 0);
    p < |json| && Ok(v) && At(json, p, ValueText(v))
  }

  function StringOf(v: Option<Value>): (r: Option<Bytes>) {
    if v.Some? && v.value.Text? && ItemsOk(v.value.items) then Some(Meaning(v.value.items)) else None
  }

  function BoolOf(v: Option<Value>): (r: Option<bool>) {
    if v == Some(Word(TRUE)) then Some(true) else if v == Some(Word(FALSE)) then Some(false) else None
  }

  lemma StringAtFound(json: Bytes, o: nat, v: Value)
    requires Found(json, o, v)
    ensures (match String(json, o) case None => None case Some(s) => Some(s.text)) == StringOf(Some(v))
  {
    hide At, StringRest, ItemsOk, StringText, Meaning, ListOk, ListText, NumeralOk, NumeralText;
    ObjectStarts(json, o, v);
    if v.Text? { StringAccepts(json, o, v.items); }
  }

  lemma BoolAtFound(json: Bytes, o: nat, v: Value)
    requires Found(json, o, v)
    ensures ReadBool(json, o) == BoolOf(Some(v))
  {
    hide ItemsOk, StringText, ListOk, ListText, NumeralOk, NumeralText, IsSpace;
    ObjectStarts(json, o, v);
    if At(json, o, TRUE) { AtIndex(json, o, TRUE, 0); }
    if At(json, o, FALSE) { AtIndex(json, o, FALSE, 0); }
  }

  /** ExtractJsonStringPath on a document is the string the path leads to in its tree, or nothing. */
  lemma ExtractStringIsLookup(json: Bytes, v: Value, path: seq<Bytes>)
    requires Document(json, v) && path != []
    ensures ExtractString(json, path) == StringOf(Follow(v, path, 1))
  {
    hide At, ValueText, Ok, Follow, FindPath, String, Found, StringOf;
    FindPathIsFollow(json, 0, v, path, 1);
    var w := Follow(v, path, 1);
    NoString();
    if w.Some? { StringAtFound(json, FindPath(json, path, 0, 1).value, w.value); }
  }

  lemma NoString()
    ensures StringOf(None) == None
  {
  }

  /** ExtractJsonBoolPath likewise: only the whole words count. */
  lemma ExtractBoolIsLookup(json: Bytes, v: Value, path: seq<Bytes>)
    requires Document(json, v) && path != []
    ensures ExtractBool(json, path) == BoolOf(Follow(v, path, 1))
  {
    hide At, ValueText, Ok, Follow, FindPath, ReadBool, Found;
    FindPathIsFollow(json, 0, v, path, 1);
    var w := Follow(v, path, 1);
    if w.Some? { BoolAtFound(json, FindPath(json, path, 0, 1).value, w.value); }
  }
}
