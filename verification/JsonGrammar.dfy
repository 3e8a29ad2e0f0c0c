/**
 JSON values as syntax trees: their text, their depth, and the theorem that SkipJsonValue accepts exactly the texts of
 well-formed trees that are nested no deeper than its limit.
 */
module JsonGrammar {
  import opened ByteStrings
  import opened JsonScanner
  import opened JsonStrings
  import opened JsonNumbers

  /** A value. The gaps hold white space; a group is an object when its members have keys and an array otherwise. */
  datatype Value =
    | Text(items: seq<Item>)
    | Number(n: Numeral)
    | Word(w: Bytes)
    | Empty(keyed: bool, gap: Bytes)
    | Group(keyed: bool, gap: Bytes, list: List)

  datatype Key = NoKey | Key(items: seq<Item>, before: Bytes, gap: Bytes)

  datatype List =
    | One(key: Key, value: Value, after: Bytes)
    | More(key: Key, value: Value, after: Bytes, gap: Bytes, rest: List)

  const COLON: Bytes := [0x3A]
  const COMMA: Bytes := [0x2C]

  predicate Spaces(s: Bytes) { forall i :: 0 <= i < |s| ==> IsSpace(s[i]) }

  predicate WordOk(w: Bytes) { w == TRUE || w == FALSE || w == NULL }

  predicate KeyOk(keyed: bool, k: Key) {
    match k
    case NoKey => !keyed
    case Key(items, before, gap) => keyed && ItemsOk(items) && Spaces(before) && Spaces(gap)
  }

  predicate Ok(v: Value)
    decreases v
  {
    match v
    case Text(items) => ItemsOk(items)
    case Number(n) => NumeralOk(n)
    case Word(w) => WordOk(w)
    case Empty(_, gap) => Spaces(gap)
    case Group(keyed, gap, list) => Spaces(gap) && ListOk(keyed, list)
  }

  predicate ListOk(keyed: bool, l: List)
    decreases l
  {
    match l
    case One(k, v, after) => KeyOk(keyed, k) && Ok(v) && Spaces(after)
    case More(k, v, after, gap, rest) =>
      KeyOk(keyed, k) && Ok(v) && Spaces(after) && Spaces(gap) && ListOk(keyed, rest)
  }

  function Opener(keyed: bool): (c: Byte) { if keyed then 0x7B else 0x5B }

  function KeyText(k: Key): (r: Bytes) {
    match k
    case NoKey => []
    case Key(items, before, gap) => StringText(items) + before + COLON + gap
  }

  function ValueText(v: Value): (r: Bytes) {
    match v
    case Text(items) => StringText(items)
    case Number(n) => NumeralText(n)
    case Word(w) => w
    case Empty(keyed, gap) => [Opener(keyed)] + gap + [Closer(keyed)]
    case Group(keyed, gap, list) => [Opener(keyed)] + gap + ListText(list) + [Closer(keyed)]
  }

  function ListText(l: List): (r: Bytes) {
    match l
    case One(k, v, after) => KeyText(k) + ValueText(v) + after
    case More(k, v, after, gap, rest) => KeyText(k) + ValueText(v) + after + (COMMA + gap + ListText(rest))
  }

  function Max(a: nat, b: nat): (r: nat) { if a < b then b else a }

  /** How many composites the deepest nesting opens. */
  function Depth(v: Value): (d: nat) {
    match v
    case Empty(_, _) => 1
    case Group(_, _, list) => 1 + ListDepth(list)
    case _ => 0
  }

  function ListDepth(l: List): (d: nat) {
    match l
    case One(_, v, _) => Depth(v)
    case More(_, v, _, _, rest) => Max(Depth(v), ListDepth(rest))
  }

  /** The limit: a value without composites is not subject to it. */
  predicate Within(d: nat, enclosing: nat) { d == 0 || enclosing + d <= 100 }

  predicate ValueStops(v: Value, json: Bytes, e: nat) { v.Number? ==> Stops(v.n, json, e) }

  // ---- White space and first octets -------------------------------------------------------------

  lemma SpacesThenByte(json: Bytes, off: nat, gap: Bytes)
    requires Spaces(gap) && At(json, off, gap) && off + |gap| < |json| && !IsSpace(json[off + |gap|])
    ensures off <= |json| && SpacesEnd(json, off) == off + |gap|
  {
    forall i | off <= i < off + |gap| ensures IsSpace(json[i]) { AtIndex(json, off, gap, i - off); }
  }

  lemma SpacesHere(json: Bytes, off: nat)
    requires off <= |json|
    ensures Spaces(json[off..SpacesEnd(json, off)]) && At(json, off, json[off..SpacesEnd(json, off)])
  {
  }

  /** A value starts with an octet that is neither white space nor punctuation. */
  lemma ValueStarts(json: Bytes, off: nat, v: Value)
    requires Ok(v) && At(json, off, ValueText(v)) && ValueStops(v, json, off + |ValueText(v)|)
    ensures off < |json| && !IsSpace(json[off]) && json[off] != 0x2C && json[off] != 0x5D
  {
    hide NumeralOk, NumeralText, NumberEnd, Body, ItemsOk, Stops, ListText, ListOk;
    match v
    case Number(n) => NumberAccepts(json, off, n);
    case _ => AtIndex(json, off, ValueText(v), 0);
  }

  lemma KeyStarts(json: Bytes, off: nat, k: Key)
    requires k.Key? && At(json, off, KeyText(k))
    ensures off < |json| && json[off] == QUOTE
  {
    hide Body;
    AtIndex(json, off, KeyText(k), 0);
  }

  // ---- Keys -------------------------------------------------------------------------------------

  lemma KeyAccepts(json: Bytes, off: nat, k: Key)
    requires KeyOk(true, k) && At(json, off, KeyText(k))
    requires off + |KeyText(k)| < |json| && !IsSpace(json[off + |KeyText(k)|])
    ensures KeyEnd(json, off) == Some(off + |KeyText(k)|)
    ensures String(json, off).Some? && String(json, off).value.text == Meaning(k.items)
  {
    hide At, String, ItemsOk, StringText, Spaces, SpacesEnd, Meaning, IsSpace;
    AtSplit4(json, off, StringText(k.items), k.before, COLON, k.gap);
    StringAccepts(json, off, k.items);
    ColonAccepts(json, off + |StringText(k.items)|, k.before, k.gap);
  }

  lemma ColonAccepts(json: Bytes, off: nat, before: Bytes, gap: Bytes)
    requires Spaces(before) && Spaces(gap)
    requires At(json, off, before) && At(json, off + |before|, COLON) && At(json, off + |before| + 1, gap)
    requires off + |before| + 1 + |gap| < |json| && !IsSpace(json[off + |before| + 1 + |gap|])
    ensures off <= |json| && SpacesEnd(json, off) == off + |before| && json[off + |before|] == 0x3A
    ensures SpacesEnd(json, off + |before| + 1) == off + |before| + 1 + |gap|
  {
    hide At, Spaces, SpacesEnd;
    AtIndex(json, off + |before|, COLON, 0);
    SpacesThenByte(json, off, before);
    SpacesThenByte(json, off + |before| + 1, gap);
  }

  lemma KeyHere(json: Bytes, off: nat) returns (k: Key)
    requires KeyEnd(json, off).Some?
    ensures KeyOk(true, k) && At(json, off, KeyText(k)) && KeyEnd(json, off) == Some(off + |KeyText(k)|)
  {
    hide At, String, ItemsOk, StringText, Spaces, SpacesEnd;
    var items := StringParts(json, off);
    var s := off + |StringText(items)|;
    SpacesHere(json, s);
    var p := SpacesEnd(json, s);
    AtOne(json, p);
    SpacesHere(json, p + 1);
    k := Key(items, json[s..p], json[p + 1..SpacesEnd(json, p + 1)]);
    AtJoin(json, off, StringText(items), k.before);
    AtJoin(json, off, StringText(items) + k.before, COLON);
    AtJoin(json, off, StringText(items) + k.before + COLON, k.gap);
  }

  // ---- Everything well formed is accepted -------------------------------------------------------

  lemma ScalarAccepts(json: Bytes, off: nat, v: Value, enclosing: nat)
    requires Ok(v) && At(json, off, ValueText(v)) && ValueStops(v, json, off + |ValueText(v)|)
    requires Depth(v) == 0 && off < |json| && !IsSpace(json[off])
    ensures Skip(json, off, enclosing) == Some(off + |ValueText(v)|)
  {
    hide NumeralOk, NumeralText, NumberEnd, String, StringText, ItemsOk, Stops, ListText, ListOk, Members;
    match v
    case Text(items) => StringAccepts(json, off, items); StringStarts(json, off, items);
    case Number(n) => NumberAccepts(json, off, n);
    case Word(w) => AtIndex(json, off, w, 0);
  }

  lemma StringStarts(json: Bytes, off: nat, items: seq<Item>)
    requires At(json, off, StringText(items))
    ensures off < |json| && json[off] == QUOTE
  {
    hide Body;
    AtIndex(json, off, StringText(items), 0);
  }

  lemma SkipOpens(json: Bytes, off: nat, keyed: bool, enclosing: nat)
    requires off < |json| && json[off] == Opener(keyed)
    ensures Skip(json, off, enclosing) == Composite(json, off, keyed, enclosing + 1)
  {
    hide Composite, StringEnd, NumberEnd, LiteralEnd;
  }

  lemma EmptyAccepts(json: Bytes, off: nat, keyed: bool, gap: Bytes, enclosing: nat)
    requires Spaces(gap) && At(json, off, ValueText(Empty(keyed, gap))) && enclosing < MAX_DEPTH
    ensures off < |json| && Skip(json, off, enclosing) == Some(off + |ValueText(Empty(keyed, gap))|)
  {
    hide At, Spaces, SpacesEnd, Skip, Members;
    AtSplit3(json, off, [Opener(keyed)], gap, [Closer(keyed)]);
    AtIndex(json, off, [Opener(keyed)], 0);
    AtIndex(json, off + 1 + |gap|, [Closer(keyed)], 0);
    SpacesThenByte(json, off + 1, gap);
    SkipOpens(json, off, keyed, enclosing);
  }

  lemma {:induction false} ValueAccepts(json: Bytes, off: nat, v: Value, enclosing: nat)
    requires Ok(v) && At(json, off, ValueText(v)) && ValueStops(v, json, off + |ValueText(v)|)
    requires Within(Depth(v), enclosing)
    ensures off <= |json| && Skip(json, off, enclosing) == Some(off + |ValueText(v)|)
    decreases v
  {
    hide At, Spaces, ListText, ValueText, ValueStops, Skip, ListOk, NumeralOk, ItemsOk, WordOk, ListDepth, Members;
    ValueStarts(json, off, v);
    if v.Group? {
      GroupParts(json, off, v);
      ListAccepts(json, off + 1 + |v.gap|, v.keyed, v.list, enclosing + 1);
      GroupAccepts(json, off, v.keyed, v.gap, enclosing);
    } else if v.Empty? {
      EmptyAccepts(json, off, v.keyed, v.gap, enclosing);
    } else {
      ScalarAccepts(json, off, v, enclosing);
    }
  }

  lemma GroupParts(json: Bytes, off: nat, v: Value)
    requires v.Group? && At(json, off, ValueText(v))
    ensures At(json, off, [Opener(v.keyed)]) && At(json, off + 1, v.gap)
    ensures At(json, off + 1 + |v.gap|, ListText(v.list))
    ensures At(json, off + 1 + |v.gap| + |ListText(v.list)|, [Closer(v.keyed)])
    ensures |ValueText(v)| == 2 + |v.gap| + |ListText(v.list)|
  {
    hide At, ListText;
    AtSplit4(json, off, [Opener(v.keyed)], v.gap, ListText(v.list), [Closer(v.keyed)]);
  }

  lemma GroupAccepts(json: Bytes, off: nat, keyed: bool, gap: Bytes, enclosing: nat)
    requires At(json, off, [Opener(keyed)]) && At(json, off + 1, gap) && Spaces(gap) && enclosing < MAX_DEPTH
    requires off + 1 + |gap| < |json| && !IsSpace(json[off + 1 + |gap|]) && json[off + 1 + |gap|] != Closer(keyed)
    ensures Skip(json, off, enclosing) == Members(json, off + 1 + |gap|, keyed, enclosing + 1)
  {
    hide At, Spaces, SpacesEnd, Skip, Members;
    AtIndex(json, off, [Opener(keyed)], 0);
    SpacesThenByte(json, off + 1, gap);
    SkipOpens(json, off, keyed, enclosing);
  }

  function ValueStart(json: Bytes, off: nat, keyed: bool): (r: Option<nat>) {
    if keyed then KeyEnd(json, off) else Some(off)
  }

  /** One turn of the loop over members. */
  lemma MembersTurn(json: Bytes, off: nat, keyed: bool, depth: nat, start: nat, e: nat)
    requires off < |json| && ValueStart(json, off, keyed) == Some(start) && start <= |json|
    requires Skip(json, start, depth) == Some(e)
    requires var p := SpacesEnd(json, e); p < |json| && (json[p] == Closer(keyed) || json[p] == 0x2C)
    ensures var p := SpacesEnd(json, e);
      Members(json, off, keyed, depth) ==
      if json[p] == Closer(keyed) then Some(p + 1) else Members(json, SpacesEnd(json, p + 1), keyed, depth)
  {
    hide Skip, KeyEnd, SpacesEnd;
  }

  /** The turn that reads a given member, whose value takes `size` octets. */
  lemma MemberAccepts(json: Bytes, off: nat, keyed: bool, k: Key, size: nat, after: Bytes, depth: nat)
    requires KeyOk(keyed, k) && Spaces(after)
    requires At(json, off, KeyText(k)) && off + |KeyText(k)| < |json| && !IsSpace(json[off + |KeyText(k)|])
    requires Skip(json, off + |KeyText(k)|, depth) == Some(off + |KeyText(k)| + size)
    requires At(json, off + |KeyText(k)| + size, after)
    requires var p := off + |KeyText(k)| + size + |after|; p < |json| && (json[p] == Closer(keyed) || json[p] == 0x2C)
    ensures var p := off + |KeyText(k)| + size + |after|;
      Members(json, off, keyed, depth) ==
      if json[p] == Closer(keyed) then Some(p + 1) else Members(json, SpacesEnd(json, p + 1), keyed, depth)
  {
    hide At, Spaces, SpacesEnd, Skip, KeyEnd, KeyText, KeyOk, Members;
    KeyIsRead(json, off, keyed, k);
    SpacesThenByte(json, off + |KeyText(k)| + size, after);
    MembersTurn(json, off, keyed, depth, off + |KeyText(k)|, off + |KeyText(k)| + size);
  }

  lemma KeyIsRead(json: Bytes, off: nat, keyed: bool, k: Key)
    requires KeyOk(keyed, k) && At(json, off, KeyText(k))
    requires off + |KeyText(k)| < |json| && !IsSpace(json[off + |KeyText(k)|])
    ensures keyed ==> KeyEnd(json, off) == Some(off + |KeyText(k)|)
    ensures !keyed ==> KeyText(k) == []
  {
    hide At, KeyEnd, String;
    if keyed { KeyAccepts(json, off, k); }
  }

  lemma ListStarts(json: Bytes, off: nat, keyed: bool, k: Key, v: Value)
    requires KeyOk(keyed, k) && Ok(v)
    requires At(json, off, KeyText(k)) && At(json, off + |KeyText(k)|, ValueText(v))
    requires ValueStops(v, json, off + |KeyText(k)| + |ValueText(v)|)
    ensures off < |json| && !IsSpace(json[off]) && json[off] != Closer(keyed)
    ensures off + |KeyText(k)| < |json| && !IsSpace(json[off + |KeyText(k)|])
  {
    hide At, ValueText, StringText, Ok, ValueStops;
    ValueStarts(json, off + |KeyText(k)|, v);
    if keyed { KeyStarts(json, off, k); }
  }

  /** A list, taken apart into its first member, the punctuation after it and the rest. */
  lemma ListParts(json: Bytes, off: nat, keyed: bool, l: List)
    requires ListOk(keyed, l) && At(json, off, ListText(l)) && At(json, off + |ListText(l)|, [Closer(keyed)])
    ensures var s := off + |KeyText(l.key)|; var e := s + |ValueText(l.value)|; var p := e + |l.after|;
      && At(json, off, KeyText(l.key)) && At(json, s, ValueText(l.value)) && At(json, e, l.after) && p < |json|
      && (l.One? ==> json[p] == Closer(keyed) && |ListText(l)| == p - off)
      && (l.More? ==>
        && json[p] == 0x2C && At(json, p + 1, l.gap) && At(json, p + 1 + |l.gap|, ListText(l.rest))
        && |ListText(l)| == p - off + 1 + |l.gap| + |ListText(l.rest)|)
  {
    hide At, KeyText, ValueText, ListOk;
    var k, v, after := l.key, l.value, l.after;
    var p := off + |KeyText(k)| + |ValueText(v)| + |after|;
    if l.One? {
      AtSplit3(json, off, KeyText(k), ValueText(v), after);
      AtIndex(json, p, [Closer(keyed)], 0);
    } else {
      AtSplit4(json, off, KeyText(k), ValueText(v), after, COMMA + l.gap + ListText(l.rest));
      AtSplit3(json, p, COMMA, l.gap, ListText(l.rest));
      AtIndex(json, p, COMMA, 0);
    }
  }

  lemma {:induction false} ListAccepts(json: Bytes, off: nat, keyed: bool, l: List, depth: nat)
    requires ListOk(keyed, l) && At(json, off, ListText(l)) && At(json, off + |ListText(l)|, [Closer(keyed)])
    requires depth + ListDepth(l) <= MAX_DEPTH
    ensures off < |json| && !IsSpace(json[off]) && json[off] != Closer(keyed)
    ensures Members(json, off, keyed, depth) == Some(off + |ListText(l)| + 1)
    decreases l
  {
    hide At, Spaces, SpacesEnd, Skip, KeyText, KeyOk, ValueText, Ok, Members, ValueStops, ListText, Depth;
    var k, v, after := l.key, l.value, l.after;
    var s := off + |KeyText(k)|;
    var p := s + |ValueText(v)| + |after|;
    ListParts(json, off, keyed, l);
    StopsBefore(json, v, s + |ValueText(v)|, after);
    ListStarts(json, off, keyed, k, v);
    ValueAccepts(json, s, v, depth);
    MemberAccepts(json, off, keyed, k, |ValueText(v)|, after, depth);
    if l.More? {
      ListAccepts(json, p + 1 + |l.gap|, keyed, l.rest, depth);
      SpacesThenByte(json, p + 1, l.gap);
    }
  }

  /** White space, a comma and the closing brackets prolong no value. */
  lemma StopsBefore(json: Bytes, v: Value, e: nat, after: Bytes)
    requires At(json, e, after) && Spaces(after) && e + |after| < |json|
    requires json[e + |after|] == 0x2C || json[e + |after|] == 0x5D || json[e + |after|] == 0x7D
    ensures ValueStops(v, json, e)
  {
    if after != [] { AtIndex(json, e, after, 0); }
  }

  // ---- Everything accepted is well formed -------------------------------------------------------

  lemma WordHere(json: Bytes, p: nat, w: Bytes)
    requires LiteralEnd(json, p, w).Some?
    ensures At(json, p, w) && LiteralEnd(json, p, w) == Some(p + |w|)
  {
  }

  lemma ScalarHere(json: Bytes, off: nat, enclosing: nat) returns (v: Value)
    requires off < |json| && SpacesEnd(json, off) == off && Skip(json, off, enclosing).Some?
    requires json[off] != 0x7B && json[off] != 0x5B
    ensures Ok(v) && At(json, off, ValueText(v)) && ValueStops(v, json, off + |ValueText(v)|) && Depth(v) == 0
    ensures Skip(json, off, enclosing) == Some(off + |ValueText(v)|)
  {
    hide At, NumeralOk, NumeralText, NumberEnd, String, StringText, ItemsOk, Stops, ListText, ListOk, Members,
         LiteralEnd;
    if json[off] == QUOTE {
      var items := StringParts(json, off);
      v := Text(items);
    } else if json[off] == 0x74 {
      WordHere(json, off, TRUE);
      v := Word(TRUE);
    } else if json[off] == 0x66 {
      WordHere(json, off, FALSE);
      v := Word(FALSE);
    } else if json[off] == 0x6E {
      WordHere(json, off, NULL);
      v := Word(NULL);
    } else {
      var n := NumberParts(json, off);
      v := Number(n);
    }
  }

  lemma {:induction false} ValueHere(json: Bytes, off: nat, enclosing: nat) returns (v: Value)
    requires off < |json| && SpacesEnd(json, off) == off && Skip(json, off, enclosing).Some?
    ensures Ok(v) && At(json, off, ValueText(v)) && ValueStops(v, json, off + |ValueText(v)|)
    ensures Within(Depth(v), enclosing)
    ensures Skip(json, off, enclosing) == Some(off + |ValueText(v)|)
    decreases |json| - off, 2
  {
    hide At, ListText, ListOk, Members, Skip, SpacesEnd;
    if json[off] == 0x7B || json[off] == 0x5B {
      SkipOpens(json, off, json[off] == 0x7B, enclosing);
      v := GroupHere(json, off, json[off] == 0x7B, enclosing + 1);
    } else {
      v := ScalarHere(json, off, enclosing);
    }
  }

  lemma GroupText(json: Bytes, off: nat, keyed: bool, gap: Bytes, list: List)
    requires At(json, off, [Opener(keyed)]) && At(json, off + 1, gap) && At(json, off + 1 + |gap|, ListText(list))
    requires At(json, off + 1 + |gap| + |ListText(list)|, [Closer(keyed)])
    ensures At(json, off, ValueText(Group(keyed, gap, list)))
  {
    hide At, ListText;
    AtJoin(json, off, [Opener(keyed)], gap);
    AtJoin(json, off, [Opener(keyed)] + gap, ListText(list));
    AtJoin(json, off, [Opener(keyed)] + gap + ListText(list), [Closer(keyed)]);
  }

  lemma {:induction false} GroupHere(json: Bytes, off: nat, keyed: bool, depth: nat) returns (v: Value)
    requires off < |json| && json[off] == Opener(keyed) && Composite(json, off, keyed, depth).Some?
    ensures Ok(v) && At(json, off, ValueText(v)) && !v.Number? && depth - 1 + Depth(v) <= MAX_DEPTH
    ensures Composite(json, off, keyed, depth) == Some(off + |ValueText(v)|)
    decreases |json| - off, 1
  {
    hide At, Spaces, ListText, ListOk, Members, SpacesEnd;
    AtOne(json, off);
    var p := SpacesEnd(json, off + 1);
    SpacesHere(json, off + 1);
    var gap := json[off + 1..p];
    if p < |json| && json[p] == Closer(keyed) {
      v := Empty(keyed, gap);
      AtOne(json, p);
      AtJoin(json, off, [Opener(keyed)], gap);
      AtJoin(json, off, [Opener(keyed)] + gap, [Closer(keyed)]);
    } else {
      var list := ListHere(json, p, keyed, depth);
      v := Group(keyed, gap, list);
      GroupText(json, off, keyed, gap, list);
    }
  }

  lemma SkipSpaces(json: Bytes, off: nat, enclosing: nat)
    requires off <= |json|
    ensures SpacesEnd(json, SpacesEnd(json, off)) == SpacesEnd(json, off)
    ensures Skip(json, off, enclosing) == Skip(json, SpacesEnd(json, off), enclosing)
    ensures Skip(json, off, enclosing).Some? ==> SpacesEnd(json, off) < |json|
  {
    hide Composite, StringEnd, NumberEnd, LiteralEnd;
  }

  /** The key of a member, and where its value starts. */
  lemma KeyOrNone(json: Bytes, off: nat, keyed: bool) returns (k: Key)
    requires off < |json| && SpacesEnd(json, off) == off && (keyed ==> KeyEnd(json, off).Some?)
    ensures KeyOk(keyed, k) && At(json, off, KeyText(k)) && off + |KeyText(k)| <= |json|
    ensures keyed ==> KeyEnd(json, off) == Some(off + |KeyText(k)|)
    ensures !keyed ==> KeyText(k) == []
    ensures SpacesEnd(json, off + |KeyText(k)|) == off + |KeyText(k)|
  {
    if keyed {
      k := KeyHere(json, off);
      hide KeyText, KeyOk, At;
      KeyEndsAtValue(json, off);
    } else {
      k := NoKey;
    }
  }

  lemma KeyEndsAtValue(json: Bytes, off: nat)
    requires KeyEnd(json, off).Some?
    ensures SpacesEnd(json, KeyEnd(json, off).value) == KeyEnd(json, off).value
  {
    hide StringEnd;
  }

  /** A successful run of the loop, unrolled once. */
  lemma MembersUnrolled(json: Bytes, off: nat, keyed: bool, depth: nat)
    requires off <= |json| && Members(json, off, keyed, depth).Some?
    ensures off < |json| && ValueStart(json, off, keyed).Some? && off <= ValueStart(json, off, keyed).value <= |json|
    ensures var v := Skip(json, ValueStart(json, off, keyed).value, depth);
      v.Some? && var p := SpacesEnd(json, v.value);
      && p < |json| && (json[p] == Closer(keyed) || json[p] == 0x2C)
      && Members(json, off, keyed, depth) ==
        if json[p] == Closer(keyed) then Some(p + 1) else Members(json, SpacesEnd(json, p + 1), keyed, depth)
  {
    hide Skip, KeyEnd, SpacesEnd;
  }

  /** One turn of the loop, read back as a member: its key, its value, the white space after it, and where that ends. */
  lemma {:induction false} MemberHere(json: Bytes, off: nat, keyed: bool, depth: nat)
    returns (k: Key, v: Value, after: Bytes, p: nat)
    requires off <= |json| && SpacesEnd(json, off) == off && Members(json, off, keyed, depth).Some?
    ensures KeyOk(keyed, k) && Ok(v) && Spaces(after) && Within(Depth(v), depth)
    ensures At(json, off, KeyText(k) + ValueText(v) + after)
    ensures off < p < |json| && p == off + |KeyText(k)| + |ValueText(v)| + |after|
    ensures json[p] == Closer(keyed) || json[p] == 0x2C
    ensures Members(json, off, keyed, depth) ==
      if json[p] == Closer(keyed) then Some(p + 1) else Members(json, SpacesEnd(json, p + 1), keyed, depth)
    decreases |json| - off, 3
  {
    hide At, Spaces, SpacesEnd, Skip, KeyText, KeyOk, ValueText, Ok, KeyEnd, ValueStops, Within, Members;
    MembersUnrolled(json, off, keyed, depth);
    k := KeyOrNone(json, off, keyed);
    var s := off + |KeyText(k)|;
    SkipSpaces(json, s, depth);
    v := ValueHere(json, s, depth);
    var e := s + |ValueText(v)|;
    p := SpacesEnd(json, e);
    after := json[e..p];
    SpacesHere(json, e);
    AtJoin(json, off, KeyText(k), ValueText(v));
    AtJoin(json, off, KeyText(k) + ValueText(v), after);
  }

  lemma {:induction false} ListHere(json: Bytes, off: nat, keyed: bool, depth: nat) returns (l: List)
    requires off <= |json| && SpacesEnd(json, off) == off && Members(json, off, keyed, depth).Some?
    requires depth <= MAX_DEPTH
    ensures ListOk(keyed, l) && At(json, off, ListText(l)) && At(json, off + |ListText(l)|, [Closer(keyed)])
    ensures depth + ListDepth(l) <= MAX_DEPTH
    ensures Members(json, off, keyed, depth) == Some(off + |ListText(l)| + 1)
    decreases |json| - off, 4
  {
    hide At, Spaces, SpacesEnd, KeyText, KeyOk, ValueText, Ok, Members, Depth;
    var k, v, after, p := MemberHere(json, off, keyed, depth);
    AtOne(json, p);
    if json[p] == Closer(keyed) {
      l := One(k, v, after);
    } else {
      var q := SpacesEnd(json, p + 1);
      SpacesHere(json, p + 1);
      SpacesOnce(json, p + 1);
      var gap := json[p + 1..q];
      var rest := ListHere(json, q, keyed, depth);
      l := More(k, v, after, gap, rest);
      ListJoins(json, off, k, v, after, p, gap, rest, keyed);
    }
  }

  lemma SpacesOnce(json: Bytes, off: nat)
    requires off <= |json|
    ensures SpacesEnd(json, SpacesEnd(json, off)) == SpacesEnd(json, off)
  {
  }

  lemma ListJoins(json: Bytes, off: nat, k: Key, v: Value, after: Bytes, p: nat, gap: Bytes, rest: List, keyed: bool)
    requires At(json, off, KeyText(k) + ValueText(v) + after) && p == off + |KeyText(k)| + |ValueText(v)| + |after|
    requires At(json, p, COMMA) && At(json, p + 1, gap) && At(json, p + 1 + |gap|, ListText(rest))
    ensures At(json, off, ListText(More(k, v, after, gap, rest)))
    ensures |ListText(More(k, v, after, gap, rest))| == p - off + 1 + |gap| + |ListText(rest)|
  {
    hide At, KeyText, ValueText;
    AtJoin(json, p, COMMA, gap);
    AtJoin(json, p, COMMA + gap, ListText(rest));
    AtJoin(json, off, KeyText(k) + ValueText(v) + after, COMMA + gap + ListText(rest));
  }

  // ---- The theorem ------------------------------------------------------------------------------

  /** The tree `v` is what a scan from `off` that ends at `e` finds. */
  predicate Scans(json: Bytes, off: nat, enclosing: nat, e: nat, v: Value)
    requires off <= |json|
  {
    var p := SpacesEnd(json, off);
    && Ok(v) && At(json, p, ValueText(v)) && e == p + |ValueText(v)|
    && Within(Depth(v), enclosing) && ValueStops(v, json, e)
  }

  /** SkipJsonValue succeeds exactly on the well-formed values within the depth limit, and ends where they end. */
  lemma SkipIsExact(json: Bytes, off: nat, enclosing: nat, e: nat)
    requires off <= |json|
    ensures Skip(json, off, enclosing) == Some(e) <==> exists v :: Scans(json, off, enclosing, e, v)
  {
    hide Skip, At, Ok, ValueText, ValueStops, SpacesEnd;
    SkipSpaces(json, off, enclosing);
    if Skip(json, off, enclosing) == Some(e) {
      var v := ValueHere(json, SpacesEnd(json, off), enclosing);
      assert Scans(json, off, enclosing, e, v);
    }
    forall v | Scans(json, off, enclosing, e, v) ensures Skip(json, off, enclosing) == Some(e) {
      ValueAccepts(json, SpacesEnd(json, off), v, enclosing);
    }
  }
}
