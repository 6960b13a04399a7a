/** JSON values, and the payload structs as encoding/json writes and reads them. */
module PayloadJson {
  import opened Wrappers

  /** A JSON value: numbers keep their text, objects the order and repetition of their members. */
  datatype Json =
    | Null
    | Bool(flag: bool)
    | Num(digits: string)
    | Str(text: string)
    | Arr(items: seq<Json>)
    | Obj(members: seq<Member>)

  datatype Member = Member(key: string, value: Json)

  /** The bytes of a json.RawMessage: none, bytes that are not JSON, or the text of a value. */
  datatype Raw = Empty | Malformed | Valid(json: Json)

  /** StructuredSecretField; `caption` is the member "label". */
  datatype Field = Field(name: string, caption: string, value: string, sensitive: bool, multiline: bool)

  /** SecretPayload; `kind` is the member "type". */
  datatype Payload = Payload(kind: string, fields: seq<Field>, text: string, value: Raw)

  const ZERO_FIELD := Field("", "", "", false, false)
  const ZERO_PAYLOAD := Payload("", [], "", Empty)

  function FieldJson(f: Field): Json {
    Obj([Member("name", Str(f.name)), Member("label", Str(f.caption)), Member("value", Str(f.value)),
         Member("sensitive", Bool(f.sensitive)), Member("multiline", Bool(f.multiline))])
  }

  function FieldsJson(fs: seq<Field>): seq<Json> {
    if fs == [] then [] else [FieldJson(fs[0])] + FieldsJson(fs[1..])
  }

  function FieldsMember(p: Payload): seq<Member> {
    if p.fields == [] then [] else [Member("fields", Arr(FieldsJson(p.fields)))]
  }

  function TextMember(p: Payload): seq<Member> {
    if p.text == "" then [] else [Member("text", Str(p.text))]
  }

  function ValueMember(p: Payload): seq<Member> {
    if p.value.Valid? then [Member("value", p.value.json)] else []
  }

  /** json.Marshal of a payload: "type" always, the other members unless they are empty. */
  function Marshal(p: Payload): Json {
    Obj([Member("type", Str(p.kind))] + FieldsMember(p) + TextMember(p) + ValueMember(p))
  }

  /** The folding under which a key names a struct member: ASCII case, the long s and the Kelvin sign. */
  function Fold(c: char): char {
    if 'A' <= c <= 'Z' then ((c as int) + 32) as char
    else if c == '\U{017F}' then 's'
    else if c == '\U{212A}' then 'k'
    else c
  }

  predicate Names(key: string, member: string) {
    |key| == |member| && forall i | 0 <= i < |key| :: Fold(key[i]) == member[i]
  }

  function ReadString(current: string, j: Json): Option<string> {
    match j
    case Str(s) => Some(s)
    case Null => Some(current)
    case _ => None
  }

  function ReadBool(current: bool, j: Json): Option<bool> {
    match j
    case Bool(b) => Some(b)
    case Null => Some(current)
    case _ => None
  }

  /** One member of an object read into a field: unknown members are skipped, a wrong type is an error. */
  function ReadFieldMember(f: Field, m: Member): Option<Field> {
    if Names(m.key, "name") then
      var r := ReadString(f.name, m.value); if r.None? then None else Some(f.(name := r.value))
    else if Names(m.key, "label") then
      var r := ReadString(f.caption, m.value); if r.None? then None else Some(f.(caption := r.value))
    else if Names(m.key, "value") then
      var r := ReadString(f.value, m.value); if r.None? then None else Some(f.(value := r.value))
    else if Names(m.key, "sensitive") then
      var r := ReadBool(f.sensitive, m.value); if r.None? then None else Some(f.(sensitive := r.value))
    else if Names(m.key, "multiline") then
      var r := ReadBool(f.multiline, m.value); if r.None? then None else Some(f.(multiline := r.value))
    else
      Some(f)
  }

  function ReadFieldMembers(f: Field, ms: seq<Member>): Option<Field>
    decreases |ms|
  {
    if ms == [] then Some(f)
    else
      var g := ReadFieldMember(f, ms[0]);
      if g.None? then None else ReadFieldMembers(g.value, ms[1..])
  }

  function ReadField(j: Json): Option<Field> {
    match j
    case Null => Some(ZERO_FIELD)
    case Obj(ms) => ReadFieldMembers(ZERO_FIELD, ms)
    case _ => None
  }

  function ReadFields(js: seq<Json>): Option<seq<Field>> {
    if js == [] then Some([])
    else
      var f, rest := ReadField(js[0]), ReadFields(js[1..]);
      if f.None? || rest.None? then None else Some([f.value] + rest.value)
  }

  /** One member of an object read into a payload; a null `value` is kept, as RawMessage does. */
  function ReadMember(p: Payload, m: Member): Option<Payload> {
    if Names(m.key, "type") then
      var r := ReadString(p.kind, m.value); if r.None? then None else Some(p.(kind := r.value))
    else if Names(m.key, "fields") then
      (match m.value
       case Null => Some(p.(fields := []))
       case Arr(js) => (var r := ReadFields(js); if r.None? then None else Some(p.(fields := r.value)))
       case _ => None)
    else if Names(m.key, "text") then
      var r := ReadString(p.text, m.value); if r.None? then None else Some(p.(text := r.value))
    else if Names(m.key, "value") then
      Some(p.(value := Valid(m.value)))
    else
      Some(p)
  }

  function ReadMembers(p: Payload, ms: seq<Member>): Option<Payload>
    decreases |ms|
  {
    if ms == [] then Some(p)
    else
      var q := ReadMember(p, ms[0]);
      if q.None? then None else ReadMembers(q.value, ms[1..])
  }

  /** json.Unmarshal into an empty payload; None is an error. */
  function Unmarshal(j: Json): Option<Payload> {
    match j
    case Null => Some(ZERO_PAYLOAD)
    case Obj(ms) => ReadMembers(ZERO_PAYLOAD, ms)
    case _ => None
  }

  lemma FieldKeys()
    ensures Names("name", "name") && Names("label", "label") && Names("value", "value")
    ensures Names("sensitive", "sensitive") && Names("multiline", "multiline")
    ensures !Names("label", "name") && !Names("value", "name") && !Names("value", "label")
    ensures !Names("sensitive", "name") && !Names("sensitive", "label") && !Names("sensitive", "value")
    ensures !Names("multiline", "name") && !Names("multiline", "label") && !Names("multiline", "value")
    ensures !Names("multiline", "sensitive")
  {
    assert Fold("value"[0]) == 'v' && "label"[0] == 'l';
    assert Fold("multiline"[0]) == 'm' && "sensitive"[0] == 's';
  }

  /** A key of small letters is recognised in any mixture of cases. */
  lemma KeysInAnyCase(key: string, member: string)
    requires |key| == |member| && forall i | 0 <= i < |key| :: 'a' <= member[i] <= 'z'
    requires forall i | 0 <= i < |key| :: key[i] == member[i] || key[i] as int + 32 == member[i] as int
    ensures Names(key, member)
  {
    forall i | 0 <= i < |key| ensures Fold(key[i]) == member[i] {
      assert 'a' <= member[i] <= 'z';
    }
  }

  lemma PayloadKeys()
    ensures Names("type", "type") && Names("fields", "fields") && Names("text", "text") && Names("value", "value")
    ensures !Names("fields", "type") && !Names("text", "type") && !Names("text", "fields")
    ensures !Names("value", "type") && !Names("value", "fields") && !Names("value", "text")
  {
    assert Fold("text"[1]) == 'e' && "type"[1] == 'y';
  }

  lemma {:induction false} FieldsInOrder(fs: seq<Field>)
    ensures |FieldsJson(fs)| == |fs| && forall i | 0 <= i < |fs| :: FieldsJson(fs)[i] == FieldJson(fs[i])
  {
    if fs != [] {
      FieldsInOrder(fs[1..]);
    }
  }

  /** The members a payload and its fields are written with, by key, and when they are left out. */
  lemma OnTheWire(p: Payload)
    ensures Marshal(p).Obj?
    ensures forall key, j | Member(key, j) in Marshal(p).members ::
              match j
              case Str(s) => (key == "type" && s == p.kind) || (key == "text" && s == p.text != "") || key == "value"
              case Arr(js) => key == "value" || (key == "fields" && p.fields != [] && |js| == |p.fields|)
              case _ => key == "value"
    ensures Member("type", Str(p.kind)) in Marshal(p).members
    ensures p.text != "" ==> Member("text", Str(p.text)) in Marshal(p).members
    ensures forall j :: Member("value", j) in Marshal(p).members <==> p.value == Valid(j)
    ensures p.fields != [] ==>
              exists js ::
                && Member("fields", Arr(js)) in Marshal(p).members && |js| == |p.fields|
                && forall i | 0 <= i < |js| ::
                     var f := p.fields[i];
                     js[i] == Obj([Member("name", Str(f.name)), Member("label", Str(f.caption)),
                                   Member("value", Str(f.value)), Member("sensitive", Bool(f.sensitive)),
                                   Member("multiline", Bool(f.multiline))])
  {
    FieldsInOrder(p.fields);
    hide FieldsJson;
    var kind := [Member("type", Str(p.kind))];
    assert kind[0] in Marshal(p).members;
    if p.fields != [] {
      assert FieldsMember(p)[0] == Member("fields", Arr(FieldsJson(p.fields)));
      assert FieldsMember(p)[0] in Marshal(p).members;
    }
  }

  lemma FieldRoundTrip(f: Field)
    ensures ReadField(FieldJson(f)) == Some(f)
  {
    FieldKeys();
    hide Names;
    var ms := FieldJson(f).members;
    var f1 := ZERO_FIELD.(name := f.name);
    var f2 := f1.(caption := f.caption);
    var f3 := f2.(value := f.value);
    var f4 := f3.(sensitive := f.sensitive);
    assert f4.(multiline := f.multiline) == f;
    assert ms[1..][1..] == ms[2..] && ms[2..][1..] == ms[3..] && ms[3..][1..] == ms[4..] && ms[4..][1..] == [];
    assert ReadFieldMembers(f, []) == Some(f);
    assert ReadFieldMembers(f4, ms[4..]) == Some(f);
    assert ReadFieldMembers(f3, ms[3..]) == Some(f);
    assert ReadFieldMembers(f2, ms[2..]) == Some(f);
    assert ReadFieldMembers(f1, ms[1..]) == Some(f);
  }

  lemma {:induction false} FieldsRoundTrip(fs: seq<Field>)
    ensures ReadFields(FieldsJson(fs)) == Some(fs)
  {
    if fs != [] {
      FieldRoundTrip(fs[0]);
      FieldsRoundTrip(fs[1..]);
      assert FieldsJson(fs)[1..] == FieldsJson(fs[1..]);
      assert fs == [fs[0]] + fs[1..];
    }
  }

  lemma {:induction false} ReadMore(p: Payload, a: seq<Member>, b: seq<Member>)
    requires ReadMembers(p, a).Some?
    ensures ReadMembers(p, a + b) == ReadMembers(ReadMembers(p, a).value, b)
    decreases |a|
  {
    if a == [] {
      assert a + b == b;
    } else {
      assert (a + b)[1..] == a[1..] + b && (a + b)[0] == a[0];
      ReadMore(ReadMember(p, a[0]).value, a[1..], b);
    }
  }

  /** Every payload without malformed bytes is read back as it was written. */
  lemma PayloadRoundTrip(p: Payload)
    requires !p.value.Malformed?
    ensures Unmarshal(Marshal(p)) == Some(p)
  {
    PayloadKeys();
    FieldsRoundTrip(p.fields);
    hide Names, ReadFields, FieldsJson;
    var p1 := ZERO_PAYLOAD.(kind := p.kind);
    var p2 := p1.(fields := p.fields);
    var p3 := p2.(text := p.text);
    var kind := [Member("type", Str(p.kind))];
    assert ReadMembers(ZERO_PAYLOAD, kind) == Some(p1);
    assert ReadMembers(p1, FieldsMember(p)) == Some(p2);
    assert ReadMembers(p2, TextMember(p)) == Some(p3);
    assert ReadMembers(p3, ValueMember(p)) == Some(p);
    ReadMore(ZERO_PAYLOAD, kind, FieldsMember(p));
    ReadMore(ZERO_PAYLOAD, kind + FieldsMember(p), TextMember(p));
    ReadMore(ZERO_PAYLOAD, kind + FieldsMember(p) + TextMember(p), ValueMember(p));
  }
}
