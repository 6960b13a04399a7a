/** The payload codec of the delivery service: what Create stores, and what Consume makes of it. */
module PayloadCodec {
  import opened PayloadJson
  import opened Text
  import opened Wrappers

  datatype CodecError = InvalidRequest | Internal

  datatype Summary = Summary(kind: string, fieldCount: nat, containsSensitive: bool)

  /** A payload in canonical form, with its summary. */
  datatype Normal = Normal(payload: Payload, summary: Summary)

  /** The part of a create request that holds the secret. */
  datatype Request = Request(secret: Raw, payload: Option<Payload>)

  const MAX_FIELDS := 50
  const MAX_NAME_BYTES := 100

  predicate IsNameChar(c: char) {
    'A' <= c <= 'Z' || 'a' <= c <= 'z' || '0' <= c <= '9' || c == '_' || c == '.' || c == '-'
  }

  /** The pattern ^[A-Za-z0-9_.-]+$. */
  predicate MatchesPattern(s: string) {
    s != "" && forall i | 0 <= i < |s| :: IsNameChar(s[i])
  }

  predicate IsControl(c: char) {
    c < ' ' || c == '\U{007F}'
  }

  method HasControlCharacters(value: string) returns (found: bool)
    ensures found <==> exists i | 0 <= i < |value| :: value[i] < ' ' || value[i] == '\U{007F}'
  {
    for i := 0 to |value|
      invariant forall k | 0 <= k < i :: !IsControl(value[k])
    {
      if IsControl(value[i]) {
        return true;
      }
    }
    found := false;
  }

  /** A field with its name and label trimmed, and the name for an empty label. */
  function Clean(f: Field): Field {
    var name, caption := TrimSpace(f.name), TrimSpace(f.caption);
    f.(name := name, caption := if caption == "" then name else caption)
  }

  predicate WellNamed(f: Field) {
    MatchesPattern(f.name) && Len(f.name) <= MAX_NAME_BYTES && Len(f.caption) <= MAX_NAME_BYTES
  }

  function CleanAll(fs: seq<Field>): (r: seq<Field>)
    ensures |r| == |fs| && forall i | 0 <= i < |fs| :: r[i] == Clean(fs[i])
  {
    seq(|fs|, i requires 0 <= i < |fs| => Clean(fs[i]))
  }

  /** No two names are the same up to case. */
  predicate NamesApart(fs: seq<Field>) {
    forall i, j | 0 <= i < j < |fs| :: ToLower(fs[i].name) != ToLower(fs[j].name)
  }

  /** A list of fields that a structured payload may have once it is clean. */
  predicate Acceptable(fs: seq<Field>) {
    NamesApart(fs) && forall i | 0 <= i < |fs| :: WellNamed(fs[i])
  }

  predicate AnySensitive(fs: seq<Field>) {
    exists i | 0 <= i < |fs| :: fs[i].sensitive
  }

  function Kind(p: Payload): string {
    TrimSpace(ToLower(p.kind))
  }

  /** The canonical form of a payload: only what its type uses, trimmed and checked. */
  function Normalized(p: Payload): Result<Normal, CodecError> {
    if Kind(p) == "structured" then
      if 1 <= |p.fields| <= MAX_FIELDS && Acceptable(CleanAll(p.fields)) then
        Success(Normal(Payload("structured", CleanAll(p.fields), "", Empty),
                       Summary("structured", |p.fields|, AnySensitive(p.fields))))
      else
        Failure(InvalidRequest)
    else if Kind(p) == "text" then
      Success(Normal(Payload("text", [], p.text, Empty), Summary("text", 0, false)))
    else if Kind(p) == "json" && p.value.Valid? then
      Success(Normal(Payload("json", [], "", p.value), Summary("json", 0, false)))
    else
      Failure(InvalidRequest)
  }

  /** A field that fails its checks, or repeats a name before it, makes the whole list unacceptable. */
  lemma Rejected(fs: seq<Field>, i: nat)
    requires i < |fs|
    requires !WellNamed(Clean(fs[i])) || exists k | 0 <= k < i ::
        ToLower(Clean(fs[k]).name) == ToLower(Clean(fs[i]).name)
    ensures !Acceptable(CleanAll(fs))
  {
    hide WellNamed, Clean, ToLower;
    var cs := CleanAll(fs);
    assert cs[i] == Clean(fs[i]);
  }

  lemma Extended(fs: seq<Field>, f: Field)
    requires Acceptable(fs) && WellNamed(f) && forall k | 0 <= k < |fs| :: ToLower(fs[k].name) != ToLower(f.name)
    ensures Acceptable(fs + [f])
  {
    hide WellNamed, ToLower;
  }

  lemma OneMore(fs: seq<Field>, i: nat)
    requires i < |fs|
    ensures CleanAll(fs[..i + 1]) == CleanAll(fs[..i]) + [Clean(fs[i])]
    ensures AnySensitive(fs[..i + 1]) <==> AnySensitive(fs[..i]) || fs[i].sensitive
  {
    assert fs[..i + 1] == fs[..i] + [fs[i]];
    if AnySensitive(fs[..i]) {
      var k :| 0 <= k < |fs[..i]| && fs[..i][k].sensitive;
      assert fs[..i + 1][k].sensitive;
    }
    if fs[i].sensitive {
      assert fs[..i + 1][i].sensitive;
    }
  }

  /** The loop over the fields of a structured payload; None refuses them. */
  method NormalizeFields(fs: seq<Field>) returns (r: Option<(seq<Field>, bool)>)
    ensures r == if Acceptable(CleanAll(fs)) then Some((CleanAll(fs), AnySensitive(fs))) else None
  {
    hide ToLower, TrimSpace, Len;
    var seen: set<string> := {};
    var containsSensitive := false;
    var fields: seq<Field> := [];
    for i := 0 to |fs|
      invariant fields == CleanAll(fs[..i]) && Acceptable(fields)
      invariant containsSensitive == AnySensitive(fs[..i])
      invariant seen == set k | 0 <= k < i :: ToLower(fields[k].name)
    {
      var field := fs[i];
      var name, caption := TrimSpace(field.name), TrimSpace(field.caption);
      if caption == "" {
        caption := name;
      }
      var key := ToLower(name);
      var control := HasControlCharacters(name);
      var cleaned := Field(name, caption, field.value, field.sensitive, field.multiline);
      assert Clean(field) == cleaned;
      OneMore(fs, i);
      if name == "" || Len(name) > 100 || Len(caption) > 100 || key in seen || !MatchesPattern(name) || control {
        Rejected(fs, i);
        return None;
      }
      Extended(fields, cleaned);
      seen := seen + {key};
      if field.sensitive {
        containsSensitive := true;
      }
      fields := fields + [cleaned];
    }
    assert fs[..|fs|] == fs;
    r := Some((fields, containsSensitive));
  }

  method NormalizePayload(p: Payload) returns (r: Result<Normal, CodecError>)
    ensures r == Normalized(p)
  {
    hide Acceptable, CleanAll, AnySensitive, TrimSpace, ToLower;
    var kind := TrimSpace(ToLower(p.kind));
    if kind == "structured" {
      if |p.fields| == 0 || |p.fields| > 50 {
        return Failure(InvalidRequest);
      }
      var fields := NormalizeFields(p.fields);
      if fields.None? {
        return Failure(InvalidRequest);
      }
      return Success(Normal(Payload("structured", fields.value.0, "", Empty),
                            Summary("structured", |fields.value.0|, fields.value.1)));
    } else if kind == "text" {
      return Success(Normal(Payload("text", [], p.text, Empty), Summary("text", 0, false)));
    } else if kind == "json" {
      if p.value.Empty? || !p.value.Valid? {
        return Failure(InvalidRequest);
      }
      return Success(Normal(Payload("json", [], "", p.value), Summary("json", 0, false)));
    } else {
      return Failure(InvalidRequest);
    }
  }

  /** A secret of the older request form: a string becomes a text payload, any other value a json payload. */
  function LegacyPayload(secret: Raw): Result<Payload, CodecError> {
    if !secret.Valid? then Failure(InvalidRequest)
    else if secret.json.Str? then Success(Payload("text", [], secret.json.text, Empty))
    else if secret.json.Null? then Success(Payload("text", [], "", Empty))
    else Success(Payload("json", [], "", secret))
  }

  /** What is encrypted and stored, with the summary. */
  datatype Stored = Stored(plaintext: Json, summary: Summary)

  function MarshalPayload(p: Payload): Result<Stored, CodecError> {
    var n := Normalized(p);
    if n.Failure? then Failure(n.error) else Success(Stored(Marshal(n.value.payload), n.value.summary))
  }

  function CanonicalPayload(req: Request): Result<Stored, CodecError> {
    if req.payload.Some? then
      MarshalPayload(req.payload.value)
    else if req.secret.Empty? || req.secret == Valid(Null) then
      Failure(InvalidRequest)
    else
      var p := LegacyPayload(req.secret);
      if p.Failure? then Failure(p.error) else MarshalPayload(p.value)
  }

  /** The `secret` of a response: an object with one string for each field, or the bytes of any value. */
  datatype Secret = Entries(entries: map<string, string>) | Plain(raw: Raw)

  /** The values by name; a later field of the same name replaces an earlier one. */
  function ByName(fs: seq<Field>): map<string, string> {
    if fs == [] then map[] else ByName(fs[..|fs| - 1])[fs[|fs| - 1].name := fs[|fs| - 1].value]
  }

  function Projected(p: Payload): Result<Secret, CodecError> {
    if p.kind == "structured" then Success(Entries(ByName(p.fields)))
    else if p.kind == "text" then Success(Plain(Valid(Str(p.text))))
    else if p.kind == "json" then Success(Plain(p.value))
    else Failure(Internal)
  }

  method LegacyProjection(p: Payload) returns (r: Result<Secret, CodecError>)
    ensures r == Projected(p)
  {
    if p.kind == "structured" {
      var values: map<string, string> := map[];
      for i := 0 to |p.fields|
        invariant values == ByName(p.fields[..i])
      {
        values := values[p.fields[i].name := p.fields[i].value];
        assert p.fields[..i + 1][..i] == p.fields[..i];
      }
      assert p.fields[..|p.fields|] == p.fields;
      return Success(Entries(values));
    } else if p.kind == "text" {
      return Success(Plain(Valid(Str(p.text))));
    } else if p.kind == "json" {
      return Success(Plain(p.value));
    } else {
      return Failure(Internal);
    }
  }

  /** What a consumer is given: the canonical payload and the older `secret` form. */
  datatype Revealed = Revealed(payload: Json, secret: Secret)

  function NormalizeConsumedPayload(plaintext: Raw): Result<Revealed, CodecError> {
    if !plaintext.Valid? then
      Failure(Internal)
    else
      var p := Unmarshal(plaintext.json);
      if p.Some? && Normalized(p.value).Success? then
        var n := Normalized(p.value).value.payload;
        var secret := Projected(n);
        if secret.Failure? then Failure(secret.error) else Success(Revealed(Marshal(n), secret.value))
      else
        var legacy := LegacyPayload(plaintext);
        if legacy.Failure? then Failure(legacy.error)
        else
          var stored := MarshalPayload(legacy.value);
          if stored.Failure? then Failure(stored.error)
          else Success(Revealed(stored.value.plaintext, Plain(plaintext)))
  }

  /** The types in lower case and trimmed are themselves. */
  lemma LowerWord(s: string)
    requires forall i | 0 <= i < |s| :: 'a' <= s[i] <= 'z'
    ensures TrimSpace(ToLower(s)) == s
  {
    hide TrimSpace;
    assert ToLower(s) == s;
    TrimmedIsFixed(s);
  }

  lemma KnownKinds()
    ensures TrimSpace(ToLower("structured")) == "structured" && TrimSpace(ToLower("text")) == "text"
    ensures TrimSpace(ToLower("json")) == "json" && TrimSpace(ToLower("")) == ""
  {
    hide TrimSpace, ToLower;
    LowerWord("structured");
    LowerWord("text");
    LowerWord("json");
    LowerWord("");
  }

  lemma CleanIsIdempotent(f: Field)
    ensures Clean(Clean(f)) == Clean(f)
  {
    hide TrimSpace;
    TrimIsIdempotent(f.name);
    TrimIsIdempotent(f.caption);
  }

  /** A canonical payload is its own canonical form, with the same summary. */
  lemma NormalizeIsIdempotent(p: Payload)
    requires Normalized(p).Success?
    ensures Normalized(Normalized(p).value.payload) == Normalized(p)
    ensures !Normalized(p).value.payload.value.Malformed?
  {
    hide Clean, Acceptable, TrimSpace, ToLower;
    KnownKinds();
    var cs := CleanAll(p.fields);
    forall i | 0 <= i < |cs| ensures Clean(cs[i]) == cs[i] && cs[i].sensitive == p.fields[i].sensitive {
      CleanIsIdempotent(p.fields[i]);
      CleanKeepsTheRest(p.fields[i]);
    }
    assert CleanAll(cs) == cs;
  }

  lemma CleanKeepsTheRest(f: Field)
    ensures Clean(f).value == f.value && Clean(f).sensitive == f.sensitive && Clean(f).multiline == f.multiline
  {
  }

  /** An accepted field keeps its value and its place; its name and label are the submitted ones up to outer space, and
      the name stands in for an empty label. */
  lemma AcceptedFieldsAreKept(p: Payload, i: nat)
    requires Normalized(p).Success? && Kind(p) == "structured" && i < |p.fields|
    ensures var f := Normalized(p).value.payload.fields[i];
            && f.name == TrimSpace(p.fields[i].name) && f.value == p.fields[i].value
            && (if TrimSpace(p.fields[i].caption) != "" then f.caption == TrimSpace(p.fields[i].caption)
                else f.caption == f.name)
            && f.sensitive == p.fields[i].sensitive && f.multiline == p.fields[i].multiline
            && f.name != "" && f.caption != "" && Trimmed(f.name) && Trimmed(f.caption)
            && Len(f.name) <= 100 && Len(f.caption) <= 100
  {
    var f := Normalized(p).value.payload.fields[i];
    assert f == Clean(p.fields[i]);
    var a, b := TrimCuts(p.fields[i].name);
    var c, d := TrimCuts(p.fields[i].caption);
    hide TrimSpace, ToLower, Len, CleanAll, NamesApart, Trimmed;
  }

  /** Which payloads of the three types are accepted, and what is kept of them. */
  lemma NormalizedIff(p: Payload)
    ensures var r, kind := Normalized(p), TrimSpace(ToLower(p.kind));
            if kind == "text" then
              r == Success(Normal(Payload("text", [], p.text, Empty), Summary("text", 0, false)))
            else if kind == "json" then
              && (r.Success? <==> p.value.Valid?)
              && (r.Success? ==> r.value == Normal(Payload("json", [], "", p.value), Summary("json", 0, false)))
            else if kind == "structured" then
              && (r.Success? <==> 1 <= |p.fields| <= 50 && UsableNames(p.fields))
              && (r.Success? ==>
                    && r.value.payload == Payload("structured", r.value.payload.fields, "", Empty)
                    && |r.value.payload.fields| == |p.fields|
                    && r.value.summary == Summary("structured", |p.fields|, r.value.summary.containsSensitive)
                    && (r.value.summary.containsSensitive <==> exists i | 0 <= i < |p.fields| :: p.fields[i].sensitive))
            else r == Failure(InvalidRequest)
  {
    hide TrimSpace, ToLower, Len;
    UsableIsAcceptable(p.fields);
  }

  /** Said of the names and labels as submitted. */
  predicate UsableNames(fs: seq<Field>) {
    && (forall i | 0 <= i < |fs| ::
          && TrimSpace(fs[i].name) != "" && Len(TrimSpace(fs[i].name)) <= 100 && Len(TrimSpace(fs[i].caption)) <= 100
          && forall c | c in TrimSpace(fs[i].name) ::
               'A' <= c <= 'Z' || 'a' <= c <= 'z' || '0' <= c <= '9' || c == '_' || c == '.' || c == '-')
    && forall i, j | 0 <= i < j < |fs| :: ToLower(TrimSpace(fs[i].name)) != ToLower(TrimSpace(fs[j].name))
  }

  lemma CleanIsWellNamed(f: Field)
    ensures WellNamed(Clean(f)) <==>
            && TrimSpace(f.name) != "" && Len(TrimSpace(f.name)) <= 100 && Len(TrimSpace(f.caption)) <= 100
            && forall c | c in TrimSpace(f.name) ::
                 'A' <= c <= 'Z' || 'a' <= c <= 'z' || '0' <= c <= '9' || c == '_' || c == '.' || c == '-'
  {
    hide TrimSpace;
    assert Len("") == 0;
    var name := TrimSpace(f.name);
    assert forall c | c in name :: exists i | 0 <= i < |name| :: name[i] == c;
    assert forall i | 0 <= i < |name| :: name[i] in name;
  }

  lemma UsableIsAcceptable(fs: seq<Field>)
    ensures Acceptable(CleanAll(fs)) <==> UsableNames(fs)
  {
    hide WellNamed, ToLower, TrimSpace, Len;
    var cs := CleanAll(fs);
    forall i | 0 <= i < |fs| ensures cs[i].name == TrimSpace(fs[i].name) {
    }
    forall i | 0 <= i < |fs| {
      CleanIsWellNamed(fs[i]);
    }
  }

  lemma {:induction false} ByNameHasEachField(fs: seq<Field>, i: nat)
    requires NamesApart(fs) && i < |fs|
    ensures fs[i].name in ByName(fs) && ByName(fs)[fs[i].name] == fs[i].value
  {
    var init := fs[..|fs| - 1];
    if i < |fs| - 1 {
      ByNameHasEachField(init, i);
      assert ToLower(fs[i].name) != ToLower(fs[|fs| - 1].name);
    }
  }

  lemma {:induction false} ByNameNames(fs: seq<Field>)
    ensures forall name | name in ByName(fs) :: exists i | 0 <= i < |fs| :: fs[i].name == name
  {
    if fs != [] {
      var init := fs[..|fs| - 1];
      ByNameNames(init);
      forall name | name in ByName(fs) ensures exists i | 0 <= i < |fs| :: fs[i].name == name {
        if name in ByName(init) {
          var i :| 0 <= i < |init| && init[i].name == name;
          assert fs[i].name == name;
        } else {
          assert fs[|fs| - 1].name == name;
        }
      }
    }
  }

  lemma {:induction false} ByNameHasNothingElse(fs: seq<Field>)
    requires NamesApart(fs)
    ensures |ByName(fs)| == |fs| && forall name | name in ByName(fs) :: exists i | 0 <= i < |fs| :: fs[i].name == name
  {
    hide ToLower;
    ByNameNames(fs);
    if fs != [] {
      var init, last := fs[..|fs| - 1], fs[|fs| - 1];
      ByNameHasNothingElse(init);
      assert forall i | 0 <= i < |init| :: init[i] == fs[i] && init[i].name != last.name;
      assert last.name !in ByName(init);
      assert ByName(fs).Keys == ByName(init).Keys + {last.name};
      assert |ByName(fs)| == |ByName(fs).Keys| && |ByName(init)| == |ByName(init).Keys|;
    }
  }

  /** The older form of a structured payload has one entry for each field, holding its value, and no other. */
  lemma OneEntryPerField(p: Payload)
    requires Normalized(p).Success? && Kind(p) == "structured"
    ensures var fs := Normalized(p).value.payload.fields;
            && Projected(Normalized(p).value.payload) == Success(Entries(ByName(fs)))
            && |ByName(fs)| == |p.fields|
            && forall i | 0 <= i < |p.fields| ::
                 TrimSpace(p.fields[i].name) in ByName(fs) &&
                 ByName(fs)[TrimSpace(p.fields[i].name)] == p.fields[i].value
  {
    hide TrimSpace, ToLower, ByName, WellNamed, NamesApart;
    var fs := Normalized(p).value.payload.fields;
    ByNameHasNothingElse(fs);
    forall i | 0 <= i < |p.fields|
      ensures TrimSpace(p.fields[i].name) in ByName(fs) && ByName(fs)[TrimSpace(p.fields[i].name)] == p.fields[i].value
    {
      assert fs[i] == Clean(p.fields[i]);
      ByNameHasEachField(fs, i);
    }
  }

  /** A canonical payload that was stored is revealed as it was stored, with its older form. */
  lemma StoredIsRevealed(p: Payload)
    requires Normalized(p).Success?
    ensures var n := Normalized(p).value.payload;
            && Projected(n).Success?
            && NormalizeConsumedPayload(Valid(Marshal(n))) == Success(Revealed(Marshal(n), Projected(n).value))
  {
    NormalizeIsIdempotent(p);
    PayloadRoundTrip(Normalized(p).value.payload);
    hide Unmarshal, Marshal, Kind, CleanAll, Acceptable, AnySensitive, ByName;
  }

  /** The response to an accepted request's delivery: the payload that was stored, and the older form of it, which
      for an older secret is the value as it was sent. */
  predicate Shows(revealed: Revealed, req: Request) {
    && CanonicalPayload(req).Success? && revealed.payload == CanonicalPayload(req).value.plaintext
    && (if req.payload.None? then req.secret.Valid? && revealed.secret == Plain(req.secret)
        else
          var normal := Normalized(req.payload.value);
          normal.Success? && Projected(normal.value.payload) == Success(revealed.secret))
  }

  /** Whatever Create accepts, Consume reveals what was stored; an older secret comes back as it was sent. */
  lemma AcceptedIsRevealed(req: Request)
    ensures match CanonicalPayload(req)
            case Failure(_) => true
            case Success(stored) =>
              match NormalizeConsumedPayload(Valid(stored.plaintext))
              case Failure(_) => false
              case Success(revealed) => Shows(revealed, req)
  {
    KnownKinds();
    hide NormalizeConsumedPayload, Marshal, TrimSpace, ToLower, CleanAll, Acceptable, AnySensitive, ByName;
    if CanonicalPayload(req).Success? {
      if req.payload.Some? {
        StoredIsRevealed(req.payload.value);
      } else {
        StoredIsRevealed(LegacyPayload(req.secret).value);
      }
    }
  }

  /** A create request is refused exactly when it holds no usable secret. */
  lemma AcceptedIff(req: Request)
    ensures CanonicalPayload(req).Success? <==>
            if req.payload.Some? then Normalized(req.payload.value).Success?
            else req.secret.Valid? && !req.secret.json.Null?
  {
    KnownKinds();
    hide Marshal, TrimSpace, ToLower, CleanAll, Acceptable, AnySensitive;
  }

  /** Any JSON plaintext is revealed; what is not a payload comes back as the value it is. */
  lemma AnyJsonIsRevealed(j: Json)
    ensures var r := NormalizeConsumedPayload(Valid(j));
            && r.Success?
            && (Unmarshal(j).None? || Normalized(Unmarshal(j).value).Failure? ==> r.value.secret == Plain(Valid(j)))
  {
    KnownKinds();
    hide Marshal, Unmarshal, TrimSpace, ToLower, CleanAll, Acceptable, AnySensitive, ByName;
  }

  /** Storing again what was revealed reveals the same payload; the same secret too, unless the plaintext was null. */
  lemma RevealingIsStable(j: Json)
    ensures match NormalizeConsumedPayload(Valid(j))
            case Failure(_) => false
            case Success(r) =>
              match NormalizeConsumedPayload(Valid(r.payload))
              case Failure(_) => false
              case Success(again) => again.payload == r.payload && (again.secret == r.secret <==> j != Null)
  {
    KnownKinds();
    hide Marshal, TrimSpace, ToLower, CleanAll, Acceptable, AnySensitive, ByName;
    var p := Unmarshal(j);
    if p.Some? && Normalized(p.value).Success? {
      StoredIsRevealed(p.value);
    } else {
      StoredIsRevealed(LegacyPayload(Valid(j)).value);
    }
  }
}
