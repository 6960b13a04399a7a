/** The regular expression `{{\s*([A-Za-z0-9_]+)\s*}}`, its leftmost scan, and the three passes of
    renderPlaceholders. */
module Placeholders {
  import opened Text
  import opened Wrappers

  /** The class \s of Go's regexp package. */
  predicate IsBlank(c: char) {
    c in "\t\n\r " || c == '\U{000C}'
  }

  predicate IsWord(c: char) {
    'A' <= c <= 'Z' || 'a' <= c <= 'z' || '0' <= c <= '9' || c == '_'
  }

  predicate Blank(s: string) {
    forall i | 0 <= i < |s| :: IsBlank(s[i])
  }

  predicate Word(s: string) {
    s != "" && forall i | 0 <= i < |s| :: IsWord(s[i])
  }

  datatype Match = Match(start: nat, end: nat, name: string)

  /** The language of the expression: `text` is a placeholder whose group is `name`. */
  ghost predicate IsPlaceholder(text: string, name: string) {
    exists left, right ::
      Blank(left) && Blank(right) && Word(name) && text == "{{" + left + name + right + "}}"
  }

  /** The expression matches s[m.start..m.end]. */
  ghost predicate IsMatch(s: string, m: Match) {
    m.start <= m.end <= |s| && IsPlaceholder(s[m.start..m.end], m.name)
  }

  function SkipBlank(s: string, i: nat): (r: nat)
    requires i <= |s|
    ensures i <= r <= |s|
    ensures forall k | i <= k < r :: IsBlank(s[k])
    ensures r < |s| ==> !IsBlank(s[r])
    decreases |s| - i
  {
    if i < |s| && IsBlank(s[i]) then SkipBlank(s, i + 1) else i
  }

  function SkipWord(s: string, i: nat): (r: nat)
    requires i <= |s|
    ensures i <= r <= |s|
    ensures forall k | i <= k < r :: IsWord(s[k])
    ensures r < |s| ==> !IsWord(s[r])
    decreases |s| - i
  {
    if i < |s| && IsWord(s[i]) then SkipWord(s, i + 1) else i
  }

  /** A deterministic scanner for a match that starts at i. */
  function MatchAt(s: string, i: nat): (m: Option<Match>)
    requires i <= |s|
    ensures m.Some? ==> m.value.start == i && i < m.value.end <= |s|
  {
    if !OccursAt(s, "{{", i) then
      None
    else
      var p := SkipBlank(s, i + 2);
      var q := SkipWord(s, p);
      var r := SkipBlank(s, q);
      if p < q && OccursAt(s, "}}", r) then Some(Match(i, r + 2, s[p..q])) else None
  }

  lemma CutInFive(s: string, i: nat, p: nat, q: nat, r: nat)
    requires i + 2 <= p <= q <= r <= |s| - 2
    ensures s[i..r + 2] == s[i..i + 2] + s[i + 2..p] + s[p..q] + s[q..r] + s[r..r + 2]
  {
  }

  lemma PartsMakeAMatch(s: string, i: nat, p: nat, q: nat, r: nat)
    requires i + 2 <= p < q <= r && OccursAt(s, "{{", i) && OccursAt(s, "}}", r)
    requires Blank(s[i + 2..p]) && Word(s[p..q]) && Blank(s[q..r])
    ensures IsMatch(s, Match(i, r + 2, s[p..q]))
  {
    hide Blank, Word;
    CutInFive(s, i, p, q, r);
  }

  lemma ScannedIsMatch(s: string, i: nat)
    requires i <= |s| && MatchAt(s, i).Some?
    ensures IsMatch(s, MatchAt(s, i).value) && MatchAt(s, i).value.start == i
  {
    hide SkipBlank, SkipWord, IsMatch, OccursAt;
    var p := SkipBlank(s, i + 2);
    var q := SkipWord(s, p);
    PartsMakeAMatch(s, i, p, q, SkipBlank(s, q));
  }

  lemma PartOf(s: string, i: nat, j: nat, before: string, part: string, after: string)
    requires i <= j <= |s| && s[i..j] == before + (part + after)
    ensures i + |before| + |part| <= |s|
    ensures s[i + |before|..i + |before| + |part|] == part
  {
    var t, a := s[i..j], |before|;
    var u := s[i + a..i + a + |part|];
    forall k | 0 <= k < |part| ensures u[k] == part[k] {
      assert u[k] == s[i + a + k] == t[a + k];
    }
  }

  lemma FiveParts(s: string, i: nat, j: nat, a: string, b: string, c: string, d: string, e: string)
    requires i <= j <= |s| && s[i..j] == a + b + c + d + e
    ensures j == i + |a| + |b| + |c| + |d| + |e|
    ensures s[i..i + |a|] == a && s[i + |a|..i + |a| + |b|] == b
    ensures s[i + |a| + |b|..i + |a| + |b| + |c|] == c
    ensures s[i + |a| + |b| + |c|..j - |e|] == d && s[j - |e|..j] == e
  {
    assert s[i..j] == a + (b + (c + (d + e)));
    PartOf(s, i, j, "", a, b + (c + (d + e)));
    PartOf(s, i, j, a, b, c + (d + e));
    assert a + (b + (c + (d + e))) == (a + b) + (c + (d + e));
    PartOf(s, i, j, a + b, c, d + e);
    assert s[i..j] == (a + b + c) + (d + e);
    PartOf(s, i, j, a + b + c, d, e);
    PartOf(s, i, j, a + b + c + d, e, "");
  }

  lemma AllBlank(s: string, i: nat, j: nat, part: string)
    requires i <= j <= |s| && s[i..j] == part && Blank(part)
    ensures forall k | i <= k < j :: IsBlank(s[k])
  {
    forall k | i <= k < j ensures IsBlank(s[k]) {
      assert s[k] == part[k - i];
    }
  }

  /** Where the parts of a match lie in the text. */
  lemma {:induction false} Dissected(s: string, m: Match) returns (p: nat, q: nat)
    requires IsMatch(s, m)
    ensures m.start + 2 <= p < q <= m.end - 2 && m.name == s[p..q]
    ensures OccursAt(s, "{{", m.start) && OccursAt(s, "}}", m.end - 2)
    ensures forall k | m.start + 2 <= k < p || q <= k < m.end - 2 :: IsBlank(s[k])
    ensures forall k | p <= k < q :: IsWord(s[k])
  {
    var t := s[m.start..m.end];
    var left, right :| Blank(left) && Blank(right) && Word(m.name) && t == "{{" + left + m.name + right + "}}";
    p := m.start + 2 + |left|;
    q := p + |m.name|;
    FiveParts(s, m.start, m.end, "{{", left, m.name, right, "}}");
    AllBlank(s, m.start + 2, p, left);
    AllBlank(s, q, m.end - 2, right);
    forall k | p <= k < q ensures IsWord(s[k]) {
      assert s[k] == s[p..q][k - p];
    }
  }

  lemma {:induction false} MatchIsScanned(s: string, m: Match)
    requires IsMatch(s, m)
    ensures m.start + 5 <= m.end <= |s| && MatchAt(s, m.start) == Some(m)
    ensures s[m.start] == s[m.start + 1] == '{' && forall k | m.start + 2 <= k < m.end :: s[k] != '{'
  {
    hide IsMatch, IsPlaceholder, SkipBlank, SkipWord;
    var p, q := Dissected(s, m);
    assert s[m.start..m.start + 2][0] == '{' && s[m.start..m.start + 2][1] == '{';
    assert s[m.end - 2..m.end][0] == '}' && s[m.end - 2..m.end][1] == '}';
    assert SkipBlank(s, m.start + 2) == p by {
      assert IsWord(s[p]);
    }
    assert SkipWord(s, p) == q by {
      assert !IsWord(s[q]);
    }
    assert SkipBlank(s, q) == m.end - 2;
  }

  /** The scanner finds a match exactly where the expression has one, and it is the only one that starts there. */
  lemma ScannerIsTheExpression(s: string, i: nat, m: Match)
    requires i <= |s|
    ensures MatchAt(s, i) == Some(m) <==> IsMatch(s, m) && m.start == i
  {
    if MatchAt(s, i) == Some(m) {
      ScannedIsMatch(s, i);
    } else if IsMatch(s, m) {
      MatchIsScanned(s, m);
    }
  }

  /** Two matches of the expression never overlap. */
  lemma MatchesAreDisjoint(s: string, m: Match, n: Match)
    requires IsMatch(s, m) && IsMatch(s, n) && m != n
    ensures m.end <= n.start || n.end <= m.start
  {
    MatchIsScanned(s, m);
    MatchIsScanned(s, n);
  }

  /** The leftmost match at or after `from`. */
  function Find(s: string, from: nat): (m: Option<Match>)
    requires from <= |s|
    ensures m.Some? ==> from <= m.value.start <= |s| && MatchAt(s, m.value.start) == m
    ensures m.Some? ==> m.value.start < m.value.end <= |s|
    decreases |s| - from
  {
    if MatchAt(s, from).Some? then MatchAt(s, from)
    else if from == |s| then None
    else Find(s, from + 1)
  }

  lemma {:induction false} FindIsLeftmost(s: string, from: nat, m: Match)
    requires from <= |s| && IsMatch(s, m) && from <= m.start
    ensures Find(s, from).Some? && Find(s, from).value.start <= m.start
    decreases |s| - from
  {
    hide MatchAt, IsMatch;
    MatchIsScanned(s, m);
    if from < m.start && MatchAt(s, from).None? {
      FindIsLeftmost(s, from + 1, m);
    }
  }

  /** FindAllStringSubmatch: successive leftmost matches, each searched after the end of the last. */
  function FindAll(s: string, from: nat): (ms: seq<Match>)
    requires from <= |s|
    decreases |s| - from
  {
    match Find(s, from)
    case None => []
    case Some(m) => [m] + FindAll(s, m.end)
  }

  /** The scan finds every match of the expression that starts at or after `from`, and nothing else. */
  lemma {:induction false} ScanFindsEveryMatch(s: string, from: nat, m: Match)
    requires from <= |s|
    ensures m in FindAll(s, from) <==> IsMatch(s, m) && from <= m.start
    decreases |s| - from
  {
    match Find(s, from)
    case None =>
      if IsMatch(s, m) && from <= m.start {
        FindIsLeftmost(s, from, m);
      }
    case Some(f) =>
      ScannedIsMatch(s, f.start);
      ScanFindsEveryMatch(s, f.end, m);
      if IsMatch(s, m) && from <= m.start {
        FindIsLeftmost(s, from, m);
        if m != f {
          MatchesAreDisjoint(s, m, f);
        }
      }
  }

  /** The matches come in the order of the text. */
  lemma {:induction false} ScanIsOrdered(s: string, from: nat, i: nat, j: nat)
    requires from <= |s| && i < j < |FindAll(s, from)|
    ensures FindAll(s, from)[i].end <= FindAll(s, from)[j].start
    decreases |s| - from
  {
    hide MatchAt, Find, IsMatch;
    var f := Find(s, from).value;
    if i > 0 {
      ScanIsOrdered(s, f.end, i - 1, j - 1);
    } else {
      ScanFindsEveryMatch(s, f.end, FindAll(s, f.end)[j - 1]);
    }
  }

  /** A template read once, left to right: literal text, a placeholder, and the rest. */
  datatype Parse = Tail(text: string) | Hole(text: string, hole: Match, rest: Parse)

  function Parsed(s: string, from: nat): Parse
    requires from <= |s|
    decreases |s| - from
  {
    match Find(s, from)
    case None => Tail(s[from..])
    case Some(m) => Hole(s[from..m.start], m, Parsed(s, m.end))
  }

  function Holes(p: Parse): seq<Match> {
    match p
    case Tail(_) => []
    case Hole(_, m, rest) => [m] + Holes(rest)
  }

  /** The literal texts, joined. */
  function Literals(p: Parse): string {
    match p
    case Tail(text) => text
    case Hole(text, _, rest) => text + Literals(rest)
  }

  /** Each placeholder replaced once by its value, the literal texts kept. */
  function Filled(p: Parse, values: map<string, string>): string {
    match p
    case Tail(text) => text
    case Hole(text, m, rest) => text + Lookup(values, m.name) + Filled(rest, values)
  }

  /** The text a parse was read from. */
  function Unparsed(p: Parse, s: string): string {
    match p
    case Tail(text) => text
    case Hole(text, m, rest) => text + (if m.start <= m.end <= |s| then s[m.start..m.end] else "") + Unparsed(rest, s)
  }

  /** Go's map index: the zero value for an absent key. */
  function Lookup(values: map<string, string>, name: string): string {
    if name in values then values[name] else ""
  }

  /** Nothing of the template is lost or moved by reading it. */
  lemma {:induction false} ParseKeepsTheText(s: string, from: nat)
    requires from <= |s|
    ensures Unparsed(Parsed(s, from), s) == s[from..]
    decreases |s| - from
  {
    hide MatchAt, Find;
    match Find(s, from)
    case None =>
    case Some(m) =>
      ParseKeepsTheText(s, m.end);
      ThreeParts(s, from, m.start, m.end);
  }

  lemma ThreeParts(s: string, i: nat, j: nat, k: nat)
    requires i <= j <= k <= |s|
    ensures s[i..] == s[i..j] + s[j..k] + s[k..]
  {
  }

  /** The holes of a template are the matches of the scan. */
  lemma {:induction false} HolesAreTheMatches(s: string, from: nat)
    requires from <= |s|
    ensures Holes(Parsed(s, from)) == FindAll(s, from)
    decreases |s| - from
  {
    hide MatchAt, Find;
    match Find(s, from)
    case None =>
    case Some(m) =>
      HolesAreTheMatches(s, m.end);
  }

  /** ReplaceAllStringFunc: copies the text between matches and the replacement of each match. */
  function ReplaceAll(s: string, from: nat, replace: string -> string): string
    requires from <= |s|
    decreases |s| - from
  {
    match Find(s, from)
    case None => s[from..]
    case Some(m) => s[from..m.start] + replace(s[m.start..m.end]) + ReplaceAll(s, m.end, replace)
  }

  /** What the callback of the last pass computes from the text of one match. */
  function Rematch(values: map<string, string>, text: string): string {
    match Find(text, 0)
    case None => text
    case Some(m) => Lookup(values, m.name)
  }

  /** Matching the text of a match again finds the same name. */
  lemma RematchFindsTheName(s: string, m: Match, values: map<string, string>)
    requires IsMatch(s, m)
    ensures Rematch(values, s[m.start..m.end]) == Lookup(values, m.name)
  {
    var text := s[m.start..m.end];
    var again := Match(0, |text|, m.name);
    assert text[0..|text|] == text;
    MatchIsScanned(text, again);
  }

  /** The pass that strips and the pass that fills cut the template at the same places as the pass that lists. */
  lemma {:induction false} PassesAgree(s: string, from: nat, values: map<string, string>)
    requires from <= |s|
    ensures ReplaceAll(s, from, text => "") == Literals(Parsed(s, from))
    ensures ReplaceAll(s, from, text => Rematch(values, text)) == Filled(Parsed(s, from), values)
    decreases |s| - from
  {
    hide MatchAt, Find, IsMatch;
    match Find(s, from)
    case None =>
    case Some(m) =>
      PassesAgree(s, m.end, values);
      ScannedIsMatch(s, m.start);
      RematchFindsTheName(s, m, values);
      calc {
        ReplaceAll(s, from, text => "");
        s[from..m.start] + "" + ReplaceAll(s, m.end, text => "");
        s[from..m.start] + Literals(Parsed(s, m.end));
      }
  }

  datatype TemplateError =
    | SubjectTooLong | MessageTooLong | FooterTooLong | DisallowedControl
    | Unsupported(name: string) | Malformed | RenderedSubjectTooLong

  predicate HasBraces(s: string) {
    Contains(s, "{{") || Contains(s, "}}")
  }

  function FirstUnsupported(ms: seq<Match>, allowed: set<string>): Option<string> {
    if ms == [] then None
    else if ms[0].name !in allowed then Some(ms[0].name)
    else FirstUnsupported(ms[1..], allowed)
  }

  /** The meaning of a template, with no guard and no second or third scan. */
  function Rendered(template: string, values: map<string, string>, allowed: set<string>)
    : Result<string, TemplateError>
  {
    var p := Parsed(template, 0);
    match FirstUnsupported(Holes(p), allowed)
    case Some(name) => Failure(Unsupported(name))
    case None => if HasBraces(Literals(p)) then Failure(Malformed) else Success(Filled(p, values))
  }

  lemma {:induction false} FirstUnsupportedIsTheFirst(ms: seq<Match>, allowed: set<string>)
    ensures match FirstUnsupported(ms, allowed)
            case None => forall m | m in ms :: m.name in allowed
            case Some(name) =>
              exists i | 0 <= i < |ms| ::
                ms[i].name == name && name !in allowed && forall k | 0 <= k < i :: ms[k].name in allowed
  {
    if ms != [] && ms[0].name in allowed {
      FirstUnsupportedIsTheFirst(ms[1..], allowed);
      var rest := FirstUnsupported(ms[1..], allowed);
      if rest.Some? {
        var i :| 0 <= i < |ms[1..]| && ms[1..][i].name == rest.value && rest.value !in allowed
                 && forall k | 0 <= k < i :: ms[1..][k].name in allowed;
        assert ms[i + 1].name == rest.value;
        assert forall k | 0 < k < i + 1 :: ms[k] == ms[1..][k - 1];
      }
    }
  }

  /** Rendering succeeds exactly when every placeholder of the text is allowed and what is left has no doubled brace. */
  lemma RenderingSucceedsIff(template: string, values: map<string, string>, allowed: set<string>)
    ensures Rendered(template, values, allowed).Success? <==>
            (forall m | IsMatch(template, m) :: m.name in allowed) && !HasBraces(Literals(Parsed(template, 0)))
    ensures Rendered(template, values, allowed).Success? ==>
            Rendered(template, values, allowed).value == Filled(Parsed(template, 0), values)
  {
    HolesAreTheMatches(template, 0);
    var ms := FindAll(template, 0);
    FirstUnsupportedIsTheFirst(ms, allowed);
    forall m: Match ensures m in ms <==> IsMatch(template, m) {
      ScanFindsEveryMatch(template, 0, m);
    }
  }

  /** Without a doubled brace there is nothing to find, so the guard skips two passes that could not fail. */
  lemma GuardIsAShortcut(template: string, values: map<string, string>, allowed: set<string>)
    requires !HasBraces(template)
    ensures Rendered(template, values, allowed) == Success(template)
  {
    assert Find(template, 0).None?;
    assert template[0..] == template;
  }

  function Moved(m: Match, n: nat): Match {
    Match(m.start + n, m.end + n, m.name)
  }

  lemma SliceMoves(pre: string, b: string, i: nat, j: nat)
    requires i <= j <= |b|
    ensures (pre + b)[|pre| + i..|pre| + j] == b[i..j]
  {
  }

  lemma MatchMoves(pre: string, b: string, m: Match)
    ensures IsMatch(pre + b, Moved(m, |pre|)) <==> IsMatch(b, m)
  {
    hide IsPlaceholder;
    if m.start <= m.end <= |b| {
      SliceMoves(pre, b, m.start, m.end);
    }
  }

  lemma MatchAtMoves(pre: string, b: string, i: nat)
    requires i <= |b|
    ensures MatchAt(pre + b, |pre| + i) ==
              if MatchAt(b, i).Some? then Some(Moved(MatchAt(b, i).value, |pre|)) else None
  {
    hide MatchAt, IsMatch;
    var here, there := MatchAt(b, i), MatchAt(pre + b, |pre| + i);
    if here.Some? {
      MatchMoves(pre, b, here.value);
      ScannerIsTheExpression(b, i, here.value);
      ScannerIsTheExpression(pre + b, |pre| + i, Moved(here.value, |pre|));
    } else if there.Some? {
      var m := Match(i, there.value.end - |pre|, there.value.name);
      MatchMoves(pre, b, m);
      ScannerIsTheExpression(b, i, m);
      ScannerIsTheExpression(pre + b, |pre| + i, there.value);
    }
  }

  lemma {:induction false} FindMoves(pre: string, b: string, i: nat)
    requires i <= |b|
    ensures Find(pre + b, |pre| + i) == if Find(b, i).Some? then Some(Moved(Find(b, i).value, |pre|)) else None
    decreases |b| - i
  {
    hide MatchAt;
    MatchAtMoves(pre, b, i);
    if MatchAt(b, i).None? && i < |b| {
      FindMoves(pre, b, i + 1);
    }
  }

  /** Two parses with the same literal texts and names. */
  ghost predicate SaySame(p: Parse, q: Parse, values: map<string, string>, allowed: set<string>) {
    && Literals(p) == Literals(q) && Filled(p, values) == Filled(q, values)
    && FirstUnsupported(Holes(p), allowed) == FirstUnsupported(Holes(q), allowed)
  }

  lemma HolesSplit(p: Parse, allowed: set<string>)
    requires p.Hole?
    ensures FirstUnsupported(Holes(p), allowed) ==
              if p.hole.name !in allowed then Some(p.hole.name) else FirstUnsupported(Holes(p.rest), allowed)
  {
    assert Holes(p)[1..] == Holes(p.rest);
  }

  lemma EqualsSaySame(p: Parse, q: Parse, values: map<string, string>, allowed: set<string>)
    requires p == q
    ensures SaySame(p, q, values, allowed)
  {
  }

  lemma HolesSaySame(p: Parse, q: Parse, values: map<string, string>, allowed: set<string>)
    requires p.Hole? && q.Hole? && p.text == q.text && p.hole.name == q.hole.name
    requires SaySame(p.rest, q.rest, values, allowed)
    ensures SaySame(p, q, values, allowed)
  {
    HolesSplit(p, allowed);
    HolesSplit(q, allowed);
  }

  lemma ParsedIs(s: string, from: nat)
    requires from <= |s|
    ensures Parsed(s, from) == match Find(s, from)
                               case None => Tail(s[from..])
                               case Some(m) => Hole(s[from..m.start], m, Parsed(s, m.end))
  {
  }

  lemma HoleMoves(pre: string, b: string, i: nat, m: Match, values: map<string, string>, allowed: set<string>)
    requires i <= |b| && Find(b, i) == Some(m)
    requires SaySame(Parsed(pre + b, |pre| + m.end), Parsed(b, m.end), values, allowed)
    ensures SaySame(Parsed(pre + b, |pre| + i), Parsed(b, i), values, allowed)
  {
    hide Find, SaySame, Parsed, MatchAt;
    FindMoves(pre, b, i);
    ParsedIs(b, i);
    ParsedIs(pre + b, |pre| + i);
    SliceMoves(pre, b, i, m.start);
    HolesSaySame(Parsed(pre + b, |pre| + i), Parsed(b, i), values, allowed);
  }

  lemma TailMoves(pre: string, b: string, i: nat, values: map<string, string>, allowed: set<string>)
    requires i <= |b| && Find(b, i).None?
    ensures SaySame(Parsed(pre + b, |pre| + i), Parsed(b, i), values, allowed)
  {
    hide Find, SaySame, Parsed, MatchAt;
    FindMoves(pre, b, i);
    ParsedIs(b, i);
    ParsedIs(pre + b, |pre| + i);
    SliceMoves(pre, b, i, |b|);
    EqualsSaySame(Parsed(pre + b, |pre| + i), Parsed(b, i), values, allowed);
  }

  /** What a parse says does not depend on what stands before it. */
  lemma {:induction false} ParseMoves(pre: string, b: string, i: nat, values: map<string, string>, allowed: set<string>)
    requires i <= |b|
    ensures SaySame(Parsed(pre + b, |pre| + i), Parsed(b, i), values, allowed)
    decreases |b| - i
  {
    hide Find, SaySame, Parsed, MatchAt;
    match Find(b, i)
    case None =>
      TailMoves(pre, b, i, values, allowed);
    case Some(m) =>
      ParseMoves(pre, b, m.end, values, allowed);
      HoleMoves(pre, b, i, m, values, allowed);
  }

  /** The text read from the front: what stands before the first placeholder, its value, and the rest. */
  lemma FirstPlaceholder(s: string, a: string, t: string, b: string, name: string, values: map<string, string>,
                         allowed: set<string>)
    requires s == a + t + b && IsPlaceholder(t, name) && forall m | IsMatch(s, m) :: |a| <= m.start
    ensures var p, q := Parsed(s, 0), Parsed(b, 0);
            && Literals(p) == a + Literals(q)
            && Filled(p, values) == a + Lookup(values, name) + Filled(q, values)
            && FirstUnsupported(Holes(p), allowed) ==
               if name !in allowed then Some(name) else FirstUnsupported(Holes(q), allowed)
  {
    hide IsPlaceholder, Find, MatchAt;
    var m := Match(|a|, |a + t|, name);
    assert s[|a|..|a + t|] == t;
    FindIsLeftmost(s, 0, m);
    ScannedIsMatch(s, Find(s, 0).value.start);
    ScannerIsTheExpression(s, |a|, m);
    assert Find(s, 0) == Some(m) && s[0..|a|] == a;
    ParseMoves(a + t, b, 0, values, allowed);
    HolesSplit(Parsed(s, 0), allowed);
  }

  /** The last character before a placeholder and the first one left after it make a doubled brace. */
  predicate Seam(a: string, rest: string) {
    a != "" && rest != "" && a[|a| - 1] == rest[0] && (rest[0] == '{' || rest[0] == '}')
  }

  lemma DoubledAt(s: string, c: char, i: nat)
    requires i + 1 < |s|
    ensures OccursAt(s, [c, c], i) <==> s[i] == c == s[i + 1]
  {
    assert s[i..i + 2] == [s[i], s[i + 1]];
  }

  lemma Doubled(s: string, c: char)
    ensures Contains(s, [c, c]) <==> exists i :: 0 <= i < |s| - 1 && s[i] == c == s[i + 1]
  {
    if i :| 0 <= i <= |s| && OccursAt(s, [c, c], i) {
      DoubledAt(s, c, i);
    }
    if i :| 0 <= i < |s| - 1 && s[i] == c == s[i + 1] {
      DoubledAt(s, c, i);
    }
  }

  lemma DoubledIn(a: string, b: string, c: char)
    ensures Contains(a + b, [c, c]) <==>
            Contains(a, [c, c]) || Contains(b, [c, c]) || (a != "" && b != "" && a[|a| - 1] == b[0] == c)
  {
    hide Contains;
    var s := a + b;
    Doubled(s, c);
    Doubled(a, c);
    Doubled(b, c);
    if i :| 0 <= i < |b| - 1 && b[i] == c == b[i + 1] {
      assert s[|a| + i] == c == s[|a| + i + 1];
    }
    if i :| 0 <= i < |a| - 1 && a[i] == c == a[i + 1] {
      assert s[i] == c == s[i + 1];
    }
    if a != "" && b != "" && a[|a| - 1] == b[0] == c {
      assert s[|a| - 1] == c == s[|a| - 1 + 1];
    }
    if i :| 0 <= i < |s| - 1 && s[i] == c == s[i + 1] {
      assert i >= |a| ==> b[i - |a|] == c == b[i - |a| + 1];
      assert i + 1 < |a| ==> a[i] == c == a[i + 1];
    }
  }

  lemma BracesIn(a: string, b: string)
    ensures HasBraces(a + b) <==> HasBraces(a) || HasBraces(b) || Seam(a, b)
  {
    hide Contains;
    DoubledIn(a, b, '{');
    DoubledIn(a, b, '}');
  }

  /** No match starts in a text without a doubled brace, not even with the brace that follows it. */
  lemma NoMatchBefore(a: string, t: string, b: string, name: string, m: Match)
    requires !HasBraces(a) && IsPlaceholder(t, name) && IsMatch(a + t + b, m)
    ensures |a| <= m.start
  {
    hide IsMatch, IsPlaceholder;
    var s := a + t + b;
    MatchIsScanned(s, m);
    StartsWithBraces(t, name);
    if m.start < |a| {
      assert s[|a|] == s[|a| + 1] == '{';
      if m.start + 1 < |a| {
        DoubledAt(a, '{', m.start);
      }
    }
  }

  lemma StartsWithBraces(t: string, name: string)
    requires IsPlaceholder(t, name)
    ensures |t| >= 5 && t[0] == t[1] == '{'
  {
  }

  /** Where the value goes.  A text that begins with `a`, which has no doubled brace, and goes on with a placeholder is
      refused if the name is not allowed.  Otherwise it renders exactly when the rest `b` does and stripping the
      placeholder makes no doubled brace at the seam; the result is `a`, the value, and what `b` renders to. */
  lemma PlaceholderIsReplaced(a: string, t: string, b: string, name: string, values: map<string, string>,
                              allowed: set<string>)
    requires !HasBraces(a) && IsPlaceholder(t, name)
    ensures var r, rest := Rendered(a + t + b, values, allowed), Rendered(b, values, allowed);
            && (name !in allowed ==> r == Failure(Unsupported(name)))
            && (name in allowed ==>
                  && (r.Success? <==> rest.Success? && !Seam(a, Literals(Parsed(b, 0))))
                  && (rest.Failure? ==> r == rest) && (r.Failure? ==> r == rest || r.error.Malformed?)
                  && (r.Success? ==> r.value == a + (if name in values then values[name] else "") + rest.value))
  {
    hide IsPlaceholder, IsMatch, HasBraces, Seam, Parsed;
    forall m | IsMatch(a + t + b, m) ensures |a| <= m.start {
      NoMatchBefore(a, t, b, name, m);
    }
    FirstPlaceholder(a + t + b, a, t, b, name, values, allowed);
    BracesIn(a, Literals(Parsed(b, 0)));
  }

  lemma PlaceholderOf(left: string, name: string, right: string)
    requires Blank(left) && Blank(right) && Word(name)
    ensures IsPlaceholder("{{" + left + name + right + "}}", name)
  {
  }

  /** The seam matters: both parts render by themselves, and the template is malformed. */
  lemma SeamHappens(values: map<string, string>)
    ensures Rendered("{", values, {"x"}) == Success("{")
    ensures Rendered("{" + "{{x}}" + "{", values, {"x"}) == Failure(Malformed)
  {
    PlaceholderOf("", "x", "");
    GuardIsAShortcut("{", values, {"x"});
    assert Find("{", 0).None? && "{"[0..] == "{";
    PlaceholderIsReplaced("{", "{{x}}", "{", "x", values, {"x"});
  }

  /** A text in which the expression matches nowhere is rendered as it is, or refused for its doubled braces. */
  lemma TextWithoutPlaceholder(template: string, values: map<string, string>, allowed: set<string>)
    requires forall m :: !IsMatch(template, m)
    ensures Rendered(template, values, allowed) ==
              if HasBraces(template) then Failure(Malformed) else Success(template)
  {
    hide IsMatch;
    if Find(template, 0).Some? {
      ScannedIsMatch(template, Find(template, 0).value.start);
    }
    assert template[0..] == template;
  }

  lemma {:induction false} FilledHasValue(p: Parse, values: map<string, string>, m: Match)
    requires m in Holes(p)
    ensures Contains(Filled(p, values), Lookup(values, m.name))
  {
    var v, rest := Lookup(values, p.hole.name), Filled(p.rest, values);
    if p.hole == m {
      ContainedAt(Filled(p, values), p.text, v, rest);
    } else {
      FilledHasValue(p.rest, values, m);
      assert Filled(p, values) == p.text + v + rest + "";
      ContainedInPart(Filled(p, values), p.text + v, rest, "", Lookup(values, m.name));
    }
  }

  method RenderPlaceholders(template: string, values: map<string, string>, allowed: set<string>)
    returns (r: Result<string, TemplateError>)
    ensures r == Rendered(template, values, allowed)
  {
    HolesAreTheMatches(template, 0);
    PassesAgree(template, 0, values);
    if Contains(template, "{{") || Contains(template, "}}") {
      var matches := FindAll(template, 0);
      for i := 0 to |matches|
        invariant FirstUnsupported(matches, allowed) == FirstUnsupported(matches[i..], allowed)
      {
        if matches[i].name !in allowed {
          return Failure(Unsupported(matches[i].name));
        }
      }
      var stripped := ReplaceAll(template, 0, text => "");
      if Contains(stripped, "{{") || Contains(stripped, "}}") {
        return Failure(Malformed);
      }
    } else {
      GuardIsAShortcut(template, values, allowed);
    }
    r := Success(ReplaceAll(template, 0, text => Rematch(values, text)));
  }

  method ContainsPlaceholder(template: string, name: string) returns (found: bool)
    ensures found <==> exists m :: IsMatch(template, m) && m.name == name
  {
    var matches := FindAll(template, 0);
    forall m: Match ensures m in matches <==> IsMatch(template, m) {
      ScanFindsEveryMatch(template, 0, m);
    }
    for i := 0 to |matches|
      invariant forall k | 0 <= k < i :: matches[k].name != name
    {
      if matches[i].name == name {
        assert matches[i] in matches;
        return true;
      }
    }
    found := false;
  }
}
