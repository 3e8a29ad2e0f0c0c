/**
 The key descriptor of the command line (src/cli/main.cpp:427-447): a flat JSON object printed with EscapeJson. Whatever
 octets the values hold, ExtractJsonString gives back exactly the values that were printed, and nothing for other keys.
 */
module JsonDescriptor {
  import opened ByteStrings
  import opened JsonScanner
  import opened JsonStrings
  import opened JsonGrammar
  import opened JsonLookup

  // ---- Flat objects of strings --------------------------------------------------------------------

  datatype Field = Field(name: Bytes, value: Bytes)

  function FieldText(f: Field): (r: Bytes) { Quoted(f.name) + COLON + Quoted(f.value) }

  function FieldsText(fs: seq<Field>): (r: Bytes) {
    if fs == [] then [] else if |fs| == 1 then FieldText(fs[0]) else FieldText(fs[0]) + COMMA + FieldsText(fs[1..])
  }

  function ObjectText(fs: seq<Field>): (r: Bytes) { [0x7B] + FieldsText(fs) + [0x7D] }

  /** The value of the first field with a name. */
  function First(fs: seq<Field>, name: Bytes): (r: Option<Bytes>) {
    if fs == [] then None else if fs[0].name == name then Some(fs[0].value) else First(fs[1..], name)
  }

  lemma MemberOfField(f: Field) returns (k: Key, v: Value)
    ensures KeyOk(true, k) && KeyText(k) == Quoted(f.name) + COLON
    ensures k.Key? && ItemsOk(k.items) && Meaning(k.items) == f.name
    ensures Ok(v) && v.Text? && ValueText(v) == Quoted(f.value) && StringOf(Some(v)) == Some(f.value)
  {
    hide ItemsOk, Body, Meaning, Escape;
    var name := ItemsOfEscape(f.name);
    var value := ItemsOfEscape(f.value);
    k := Key(name, [], []);
    v := Text(value);
    assert Quoted(f.name) + [] == Quoted(f.name);
    assert Quoted(f.name) + COLON + [] == Quoted(f.name) + COLON;
  }

  lemma {:induction false} ListOfFields(fs: seq<Field>, name: Bytes) returns (l: List)
    requires fs != []
    ensures ListOk(true, l) && ListText(l) == FieldsText(fs)
    ensures StringOf(Lookup(l, name, 1)) == First(fs, name)
    decreases |fs|
  {
    hide ItemsOk, Meaning, KeyOk, Ok, KeyText, ValueText, StringOf, Quoted;
    var k, v := MemberOfField(fs[0]);
    assert v.Text?;
    if |fs| == 1 {
      l := One(k, v, []);
      assert ListText(l) == KeyText(k) + ValueText(v) + [] == FieldText(fs[0]);
      assert StringOf(None) == None by { NoString(); }
    } else {
      var rest := ListOfFields(fs[1..], name);
      l := More(k, v, [], [], rest);
      JoinText(KeyText(k), ValueText(v), ListText(rest));
    }
  }

  lemma JoinText(k: Bytes, v: Bytes, rest: Bytes)
    ensures k + v + [] + (COMMA + [] + rest) == k + v + COMMA + rest
  {
    assert COMMA + [] == COMMA;
    assert k + v + [] == k + v;
  }

  /** Any flat object of strings reads back: arbitrary octets as names and as values. */
  lemma ObjectReadsBack(fs: seq<Field>, name: Bytes)
    requires fs != []
    ensures ExtractString(ObjectText(fs), [name]) == First(fs, name)
  {
    hide ListOk, ListText, FieldsText, Lookup, StringOf, ExtractString, SpacesEnd;
    var l := ListOfFields(fs, name);
    var v := Group(true, [], l);
    var json := ObjectText(fs);
    assert ValueText(v) == json by { assert [Opener(true)] + [] == [0x7B]; }
    NoSpaces(json, 0);
    assert At(json, 0, json) by { assert json[0..|json|] == json; }
    assert SpacesEnd(json, 0) == 0;
    ExtractStringIsLookup(json, v, [name]);
    hide ValueText;
    assert Follow(v, [name], 1) == Lookup(l, name, 1);
  }

  // ---- The descriptor ---------------------------------------------------------------------------

  const PATH: Bytes := [0x70, 0x61, 0x74, 0x68]
  const PASSWORD: Bytes := [0x70, 0x61, 0x73, 0x73, 0x77, 0x6F, 0x72, 0x64]
  const KEY_PASSWORD: Bytes := [0x6B, 0x65, 0x79, 0x50, 0x61, 0x73, 0x73, 0x77, 0x6F, 0x72, 0x64]
  const ALIAS: Bytes := [0x61, 0x6C, 0x69, 0x61, 0x73]
  const CERTIFICATE_PATH: Bytes :=
    [0x63, 0x65, 0x72, 0x74, 0x69, 0x66, 0x69, 0x63, 0x61, 0x74, 0x65, 0x50, 0x61, 0x74, 0x68]
  const CA: Bytes := [0x63, 0x61]
  const SUBJECT: Bytes := [0x73, 0x75, 0x62, 0x6A, 0x65, 0x63, 0x74]

  datatype KeyOptions = KeyOptions(path: Bytes, password: Bytes, keyPassword: Bytes, alias: Bytes, certificate: Bytes,
                                   ca: Bytes, subject: Bytes)

  /** A value that was not given is empty, and is not printed. */
  function Given(name: Bytes, value: Bytes): (r: seq<Field>) { if value == [] then [] else [Field(name, value)] }

  function Fields(o: KeyOptions): (r: seq<Field>)
    ensures r != []
  {
    [Field(PATH, o.path)] + Given(PASSWORD, o.password) + Given(KEY_PASSWORD, o.keyPassword) + Given(ALIAS, o.alias)
    + Given(CERTIFICATE_PATH, o.certificate) + Given(CA, o.ca) + Given(SUBJECT, o.subject)
  }

  predicate Unescaped(s: Bytes) { forall i :: 0 <= i < |s| ==> 0x20 <= s[i] && s[i] != QUOTE && s[i] != BACKSLASH }

  lemma {:induction false} UnescapedStays(s: Bytes)
    requires Unescaped(s)
    ensures Escape(s) == s
  {
    if s != [] {
      UnescapedStays(s[1..]);
      assert s == [s[0]] + s[1..];
    }
  }

  lemma {:induction false} FieldsAppend(fs: seq<Field>, f: Field)
    requires fs != []
    ensures FieldsText(fs + [f]) == FieldsText(fs) + COMMA + FieldText(f)
  {
    hide FieldText;
    var all := fs + [f];
    if |fs| == 1 {
      assert all[1..] == [f];
    } else {
      FieldsAppend(fs[1..], f);
      assert all[1..] == fs[1..] + [f];
    }
  }

  method AppendOption(descriptor: Bytes, name: Bytes, value: Bytes, ghost fs: seq<Field>) returns (out: Bytes)
    requires descriptor == [0x7B] + FieldsText(fs) && fs != [] && Unescaped(name)
    ensures out == [0x7B] + FieldsText(fs + Given(name, value))
  {
    hide FieldsText, Escape;
    if value == [] {
      assert fs + [] == fs;
      return descriptor;
    }
    var text := EscapeJson(value);
    out := descriptor + (COMMA + ([QUOTE] + name + [QUOTE] + COLON + ([QUOTE] + text + [QUOTE])));
    UnescapedStays(name);
    FieldsAppend(fs, Field(name, value));
    assert out == [0x7B] + (FieldsText(fs) + COMMA + FieldText(Field(name, value)));
  }

  method BuildDescriptor(o: KeyOptions) returns (out: Bytes)
    ensures out == ObjectText(Fields(o))
  {
    hide FieldsText, Escape, Given;
    var text := EscapeJson(o.path);
    out := [0x7B] + ([QUOTE] + PATH + [QUOTE] + COLON + ([QUOTE] + text + [QUOTE]));
    UnescapedStays(PATH);
    ghost var fs := [Field(PATH, o.path)];
    assert FieldsText(fs) == FieldText(fs[0]) by { OneField(fs[0]); }
    out := AppendOption(out, PASSWORD, o.password, fs);
    fs := fs + Given(PASSWORD, o.password);
    out := AppendOption(out, KEY_PASSWORD, o.keyPassword, fs);
    fs := fs + Given(KEY_PASSWORD, o.keyPassword);
    out := AppendOption(out, ALIAS, o.alias, fs);
    fs := fs + Given(ALIAS, o.alias);
    out := AppendOption(out, CERTIFICATE_PATH, o.certificate, fs);
    fs := fs + Given(CERTIFICATE_PATH, o.certificate);
    out := AppendOption(out, CA, o.ca, fs);
    fs := fs + Given(CA, o.ca);
    out := AppendOption(out, SUBJECT, o.subject, fs);
    fs := fs + Given(SUBJECT, o.subject);
    out := out + [0x7D];
  }

  lemma OneField(f: Field)
    ensures FieldsText([f]) == FieldText(f)
  {
  }

  lemma {:induction false} FirstOfJoin(a: seq<Field>, b: seq<Field>, name: Bytes)
    ensures First(a + b, name) == if First(a, name).Some? then First(a, name) else First(b, name)
    decreases |a|
  {
    if a == [] {
      assert a + b == b;
    } else {
      FirstOfJoin(a[1..], b, name);
      assert (a + b)[1..] == a[1..] + b;
    }
  }

  function Nonempty(value: Bytes): (r: Option<Bytes>) { if value == [] then None else Some(value) }

  lemma FirstOfGiven(a: seq<Field>, name: Bytes, value: Bytes, key: Bytes)
    ensures First(a + Given(name, value), key) ==
      if First(a, key).Some? then First(a, key) else if key == name then Nonempty(value) else None
  {
    FirstOfJoin(a, Given(name, value), key);
  }

  /** What the options say about a key. */
  function Told(o: KeyOptions, key: Bytes): (r: Option<Bytes>) {
    if key == PATH then Some(o.path)
    else if key == PASSWORD then Nonempty(o.password)
    else if key == KEY_PASSWORD then Nonempty(o.keyPassword)
    else if key == ALIAS then Nonempty(o.alias)
    else if key == CERTIFICATE_PATH then Nonempty(o.certificate)
    else if key == CA then Nonempty(o.ca)
    else if key == SUBJECT then Nonempty(o.subject)
    else None
  }

  lemma FieldsAreOptions(o: KeyOptions, key: Bytes)
    ensures First(Fields(o), key) == Told(o, key)
  {
    hide Given;
    var a0 := [Field(PATH, o.path)];
    assert First(a0, key) == if key == PATH then Some(o.path) else None;
    hide First;
    var a1 := a0 + Given(PASSWORD, o.password);
    FirstOfGiven(a0, PASSWORD, o.password, key);
    var a2 := a1 + Given(KEY_PASSWORD, o.keyPassword);
    FirstOfGiven(a1, KEY_PASSWORD, o.keyPassword, key);
    var a3 := a2 + Given(ALIAS, o.alias);
    FirstOfGiven(a2, ALIAS, o.alias, key);
    var a4 := a3 + Given(CERTIFICATE_PATH, o.certificate);
    FirstOfGiven(a3, CERTIFICATE_PATH, o.certificate, key);
    var a5 := a4 + Given(CA, o.ca);
    FirstOfGiven(a4, CA, o.ca, key);
    FirstOfGiven(a5, SUBJECT, o.subject, key);
    NamesDiffer();
  }

  lemma NamesDiffer()
    ensures |PATH| == 4 && |PASSWORD| == 8 && |KEY_PASSWORD| == 11 && |ALIAS| == 5 && |CERTIFICATE_PATH| == 15
    ensures |CA| == 2 && |SUBJECT| == 7
  {
  }

  /** Every key of the printed descriptor, and every other key, reads as the options say. */
  lemma DescriptorReadsBack(o: KeyOptions, key: Bytes)
    ensures ExtractString(ObjectText(Fields(o)), [key]) == Told(o, key)
  {
    hide Fields, ObjectText, ExtractString, First, Told;
    ObjectReadsBack(Fields(o), key);
    FieldsAreOptions(o, key);
  }
}
