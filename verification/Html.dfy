/**
 The HTML part of a letter: paragraphs and escaping, and a reader that finds in it the words of the letter
 and no markup of theirs.
 */
module Html {
  import opened Text
  import opened Wrappers

  const BODY :=
    "body style=\"margin:0;" + "padding:24px;" + "background:#f6f8f7;" + "color:#16211f;" + "font-family:Arial," +
    "sans-serif;\""
  const MAIN :=
    "main style=\"" + "max-width:640px;" + "margin:0 auto;" + "background:#ffffff;" + "border:1px solid #dfe6e3;" +
    "padding:24px;\""
  const TITLE := "h1 style=\"font-size:20px;" + "line-height:1.3;" + "margin:0 0 16px;\""
  const PARAGRAPH := "p style=\"font-size:15px;" + "line-height:1.6;" + "margin:0 0 14px;\""
  const SMALL := "p style=\"font-size:13px;" + "line-height:1.5;" + "margin:18px 0 0;" + "color:#64716d;\""
  const NOTICE :=
    "This email contains " + "only a one-time link. " + "The secret value " + "is never included " + "in email."

  function Tag(body: string): string {
    "<" + body + ">"
  }

  /** Every tag the page may hold. */
  const FIXED: set<string> := {
    "!doctype html", "html", BODY, MAIN, TITLE, "/h1", PARAGRAPH, "br", "/p", SMALL, "/main", "/body", "/html"
  }

  /** html.EscapeString, one character at a time. */
  function EscapeChar(c: char): string {
    match c
    case '&' => "&amp;"
    case '\'' => "&#39;"
    case '<' => "&lt;"
    case '>' => "&gt;"
    case '"' => "&#34;"
    case _ => [c]
  }

  function Escape(s: string): string {
    if s == "" then "" else EscapeChar(s[0]) + Escape(s[1..])
  }

  /** strings.Split with a separator that is not empty. */
  function Split(s: string, sep: string): (pieces: seq<string>)
    requires sep != ""
    ensures pieces != []
    decreases |s|
  {
    if sep <= s then [""] + Split(s[|sep|..], sep)
    else if s == "" then [""]
    else
      var rest := Split(s[1..], sep);
      [[s[0]] + rest[0]] + rest[1..]
  }

  /** strings.ReplaceAll of "\r\n" by "\n". */
  function UnixLines(s: string): string
    decreases |s|
  {
    if "\r\n" <= s then "\n" + UnixLines(s[2..]) else if s == "" then "" else [s[0]] + UnixLines(s[1..])
  }

  /** strings.Trim with the cutset "\n". */
  function TrimLines(s: string): string
    decreases |s|
  {
    if s != "" && s[0] == '\n' then TrimLines(s[1..])
    else if s != "" && s[|s| - 1] == '\n' then TrimLines(s[..|s| - 1])
    else s
  }

  /** The chunks that hold more than space, without the line ends around them. */
  function Paragraphs(chunks: seq<string>): seq<string> {
    if chunks == [] then []
    else
      var before, chunk := Paragraphs(chunks[..|chunks| - 1]), TrimLines(chunks[|chunks| - 1]);
      if TrimSpace(chunk) != "" then before + [chunk] else before
  }

  method SplitParagraphs(text: string) returns (out: seq<string>)
    ensures out == Paragraphs(Split(UnixLines(text), "\n\n"))
    ensures forall p | p in out :: TrimSpace(p) != "" && !Contains(p, "\n\n") && p[0] != '\n' && p[|p| - 1] != '\n'
  {
    hide Split, UnixLines, TrimLines, TrimSpace, Contains;
    var chunks := Split(UnixLines(text), "\n\n");
    SplitCutsEverywhere(UnixLines(text), "\n\n");
    ParagraphsAreClean(chunks);
    out := [];
    for i := 0 to |chunks|
      invariant out == Paragraphs(chunks[..i])
    {
      var chunk := TrimLines(chunks[i]);
      assert chunks[..i + 1][..i] == chunks[..i];
      if TrimSpace(chunk) != "" {
        out := out + [chunk];
      }
    }
    assert chunks[..|chunks|] == chunks;
  }

  /** `html`, with the lines added: escaped, and with breaks between them. */
  function AddLines(html: string, lines: seq<string>): string {
    if lines == [] then html
    else
      AddLines(html, lines[..|lines| - 1]) + (if |lines| > 1 then Tag("br") else "") + Escape(lines[|lines| - 1])
  }

  /** `html`, with the paragraphs added. */
  function AddParagraphs(html: string, paragraphs: seq<string>): string {
    if paragraphs == [] then html
    else
      var before := AddParagraphs(html, paragraphs[..|paragraphs| - 1]);
      AddLines(before + Tag(PARAGRAPH), Split(paragraphs[|paragraphs| - 1], "\n")) + Tag("/p")
  }

  function Head(): string {
    Tag("!doctype html") + Tag("html") + Tag(BODY) + Tag(MAIN) + Tag(TITLE)
  }

  function Foot(): string {
    Tag(SMALL) + NOTICE + Tag("/p") + Tag("/main") + Tag("/body") + Tag("/html")
  }

  function Page(subject: string, text: string): string {
    AddParagraphs(Head() + Escape(subject) + Tag("/h1"), Paragraphs(Split(UnixLines(text), "\n\n"))) + Foot()
  }

  method TextToHtml(subject: string, text: string) returns (html: string)
    ensures html == Page(subject, text)
  {
    hide Escape, Head, Foot, Tag, UnixLines, Split, Paragraphs;
    html := Head();
    html := html + Escape(subject);
    html := html + Tag("/h1");
    ghost var start := html;
    var paragraphs := SplitParagraphs(text);
    for i := 0 to |paragraphs|
      invariant html == AddParagraphs(start, paragraphs[..i])
    {
      assert paragraphs[..i + 1][..i] == paragraphs[..i];
      html := html + Tag(PARAGRAPH);
      html := AppendLines(html, Split(paragraphs[i], "\n"));
      html := html + Tag("/p");
    }
    assert paragraphs[..|paragraphs|] == paragraphs;
    html := html + Foot();
  }

  /** The inner loop. */
  method AppendLines(start: string, lines: seq<string>) returns (html: string)
    ensures html == AddLines(start, lines)
  {
    hide Escape, Tag;
    html := start;
    for j := 0 to |lines|
      invariant html == AddLines(start, lines[..j])
    {
      assert lines[..j + 1][..j] == lines[..j];
      ghost var before := html;
      if j > 0 {
        html := html + Tag("br");
      } else {
        assert html == html + "";
      }
      html := html + Escape(lines[j]);
    }
    assert lines[..|lines|] == lines;
  }

  /** What a reader of HTML finds: the tags, and the text laid out, with its entities decoded, a new line at a break and
      an empty line after a heading or a paragraph. */
  datatype Seen = Seen(tags: seq<string>, text: string)

  function BreakOf(body: string): string {
    if body == "br" then "\n" else if body == "/p" || body == "/h1" then "\n\n" else ""
  }

  function Then(a: Seen, b: Seen): Seen {
    Seen(a.tags + b.tags, a.text + b.text)
  }

  function Close(s: string, i: nat): (j: nat)
    requires i <= |s|
    ensures i <= j <= |s| && (j < |s| ==> s[j] == '>') && forall k | i <= k < j :: s[k] != '>'
    decreases |s| - i
  {
    if i == |s| || s[i] == '>' then i else Close(s, i + 1)
  }

  predicate Starts(s: string, entity: string) {
    |entity| <= |s| && forall i | 0 <= i < |entity| :: s[i] == entity[i]
  }

  /** The character an entity at the start stands for, and the length of the entity. */
  function Entity(s: string): Option<(char, nat)> {
    if Starts(s, "&amp;") then Some(('&', 5))
    else if Starts(s, "&lt;") then Some(('<', 4))
    else if Starts(s, "&gt;") then Some(('>', 4))
    else if Starts(s, "&#34;") then Some(('"', 5))
    else if Starts(s, "&#39;") then Some(('\'', 5))
    else None
  }

  function Read(html: string): Seen
    decreases |html|
  {
    if html == "" then Seen([], "")
    else if html[0] == '<' then
      var j := Close(html, 1);
      if j == |html| then Seen([html[1..]], "")
      else Then(Seen([html[1..j]], BreakOf(html[1..j])), Read(html[j + 1..]))
    else
      match Entity(html)
      case Some((c, n)) => Then(Seen([], [c]), Read(html[n..]))
      case None => Then(Seen([], [html[0]]), Read(html[1..]))
  }

  /** `part`, wherever a text starts with it, is read as `seen`. */
  ghost predicate ReadsAs(part: string, seen: Seen) {
    forall rest: string :: Read(part + rest) == Then(seen, Read(rest))
  }

  predicate Unclosed(s: string) {
    forall i | 0 <= i < |s| :: s[i] != '>'
  }

  lemma ReadsTag(body: string)
    requires Unclosed(body)
    ensures ReadsAs(Tag(body), Seen([body], BreakOf(body)))
  {
    hide BreakOf;
    forall rest: string ensures Read(Tag(body) + rest) == Then(Seen([body], BreakOf(body)), Read(rest)) {
      var html := Tag(body) + rest;
      assert html[0] == '<' && html[|body| + 1] == '>';
      assert forall k | 1 <= k < |body| + 1 :: html[k] == body[k - 1];
      assert Close(html, 1) == |body| + 1;
      assert html[1..|body| + 1] == body && html[|body| + 2..] == rest;
    }
  }

  lemma ThenIsAssociative(x: Seen, y: Seen, z: Seen)
    ensures Then(Then(x, y), z) == Then(x, Then(y, z))
  {
    assert x.tags + y.tags + z.tags == x.tags + (y.tags + z.tags);
    assert x.text + y.text + z.text == x.text + (y.text + z.text);
  }

  lemma ReadsBoth(a: string, b: string, x: Seen, y: Seen)
    requires ReadsAs(a, x) && ReadsAs(b, y)
    ensures ReadsAs(a + b, Then(x, y))
  {
    hide Read, Then;
    forall rest: string ensures Read(a + b + rest) == Then(Then(x, y), Read(rest)) {
      assert a + b + rest == a + (b + rest);
      ThenIsAssociative(x, y, Read(rest));
      assert Read(a + (b + rest)) == Then(x, Read(b + rest));
      assert Read(b + rest) == Then(y, Read(rest));
    }
  }

  lemma ReadsNothing()
    ensures ReadsAs("", Seen([], ""))
  {
    assert forall rest: string :: "" + rest == rest;
  }

  /** The characters that are written as entities. */
  predicate Special(c: char) {
    c == '&' || c == '\'' || c == '<' || c == '>' || c == '"'
  }

  /** An entity stands for the character it was written for. */
  lemma EntityOf(c: char, rest: string)
    requires Special(c)
    ensures Entity(EscapeChar(c) + rest) == Some((c, |EscapeChar(c)|))
    ensures |EscapeChar(c)| > 0 && EscapeChar(c)[0] == '&'
  {
    var html := EscapeChar(c) + rest;
    if c == '&' {
      assert Starts(html, "&amp;");
    } else if c == '<' {
      assert html[1] == 'l' && "&amp;"[1] == 'a';
    } else if c == '>' {
      assert html[1] == 'g' && "&amp;"[1] == 'a' && "&lt;"[1] == 'l';
    } else {
      assert html[1] == '#' && "&amp;"[1] == 'a' && "&lt;"[1] == 'l' && "&gt;"[1] == 'g';
      if c == '\'' {
        assert html[3] == '9' && "&#34;"[3] == '4';
      }
    }
  }

  lemma ReadsSpecial(c: char, rest: string)
    requires Special(c)
    ensures Read(EscapeChar(c) + rest) == Then(Seen([], [c]), Read(rest))
  {
    hide EscapeChar, Entity, Then;
    var html := EscapeChar(c) + rest;
    EntityOf(c, rest);
    assert html[0] == '&';
    assert html[|EscapeChar(c)|..] == rest;
  }

  /** An entity starts with an ampersand. */
  lemma NoEntity(s: string)
    requires s != "" && s[0] != '&'
    ensures Entity(s).None?
  {
    assert "&amp;"[0] == "&lt;"[0] == "&gt;"[0] == "&#34;"[0] == "&#39;"[0] == '&';
  }

  lemma ReadsPlain(c: char, rest: string)
    requires !Special(c)
    ensures Read([c] + rest) == Then(Seen([], [c]), Read(rest))
  {
    hide Entity, Then;
    var html := [c] + rest;
    NoEntity(html);
    assert html[0] == c && html[1..] == rest;
  }

  lemma NotEscaped(c: char)
    requires !Special(c)
    ensures EscapeChar(c) == [c]
  {
  }

  lemma ReadsEscapedChar(c: char)
    ensures ReadsAs(EscapeChar(c), Seen([], [c]))
  {
    hide EscapeChar, Read, Then, Special;
    forall rest: string ensures Read(EscapeChar(c) + rest) == Then(Seen([], [c]), Read(rest)) {
      if Special(c) {
        ReadsSpecial(c, rest);
      } else {
        NotEscaped(c);
        ReadsPlain(c, rest);
      }
    }
  }

  /** Escaped text is read back as the text, and as no tag. */
  lemma {:induction false} ReadsEscaped(s: string)
    ensures ReadsAs(Escape(s), Seen([], s))
  {
    hide ReadsAs, EscapeChar;
    if s == "" {
      ReadsNothing();
    } else {
      ReadsEscapedChar(s[0]);
      ReadsEscaped(s[1..]);
      ReadsBoth(EscapeChar(s[0]), Escape(s[1..]), Seen([], [s[0]]), Seen([], s[1..]));
      assert Then(Seen([], [s[0]]), Seen([], s[1..])) == Seen([], s) by {
        assert [s[0]] + s[1..] == s;
      }
    }
  }

  /** A text without its spaces. */
  function Squeeze(s: string): string {
    if s == "" then "" else (if IsSpace(s[0]) then "" else [s[0]]) + Squeeze(s[1..])
  }

  lemma {:induction false} SqueezeBoth(a: string, b: string)
    ensures Squeeze(a + b) == Squeeze(a) + Squeeze(b)
  {
    hide IsSpace;
    if a == "" {
      assert a + b == b;
    } else {
      SqueezeBoth(a[1..], b);
      assert (a + b)[0] == a[0] && (a + b)[1..] == a[1..] + b;
      var head := if IsSpace(a[0]) then "" else [a[0]];
      assert head + (Squeeze(a[1..]) + Squeeze(b)) == head + Squeeze(a[1..]) + Squeeze(b);
    }
  }

  lemma {:induction false} SpacesAreSqueezed(s: string)
    requires forall i | 0 <= i < |s| :: IsSpace(s[i])
    ensures Squeeze(s) == ""
  {
    if s != "" {
      SpacesAreSqueezed(s[1..]);
    }
  }

  lemma {:induction false} UnixKeepsWords(s: string)
    ensures Squeeze(UnixLines(s)) == Squeeze(s)
    decreases |s|
  {
    if "\r\n" <= s {
      UnixKeepsWords(s[2..]);
      SqueezeBoth("\n", UnixLines(s[2..]));
      SpacesAreSqueezed("\n");
      SpacesAreSqueezed("\r\n");
      SqueezeBoth("\r\n", s[2..]);
      assert s == "\r\n" + s[2..];
    } else if s != "" {
      UnixKeepsWords(s[1..]);
      SqueezeBoth([s[0]], UnixLines(s[1..]));
      SqueezeBoth([s[0]], s[1..]);
      assert s == [s[0]] + s[1..];
    }
  }

  lemma {:induction false} TrimKeepsWords(s: string)
    ensures Squeeze(TrimLines(s)) == Squeeze(s)
  {
    hide Squeeze;
    SpacesAreSqueezed("\n");
    if s != "" && s[0] == '\n' {
      TrimKeepsWords(s[1..]);
      SqueezeBoth("\n", s[1..]);
      assert s == "\n" + s[1..] && "" + Squeeze(s[1..]) == Squeeze(s[1..]);
    } else if s != "" && s[|s| - 1] == '\n' {
      TrimKeepsWords(s[..|s| - 1]);
      SqueezeBoth(s[..|s| - 1], "\n");
      assert s == s[..|s| - 1] + "\n" && Squeeze(s[..|s| - 1]) + "" == Squeeze(s[..|s| - 1]);
    }
  }

  lemma {:induction false} LeftSpacesAreSqueezed(s: string)
    ensures Squeeze(TrimLeft(s)) == Squeeze(s)
  {
    if s != "" && IsSpace(s[0]) {
      LeftSpacesAreSqueezed(s[1..]);
    }
  }

  lemma {:induction false} RightSpacesAreSqueezed(s: string)
    ensures Squeeze(TrimRight(s)) == Squeeze(s)
  {
    if s != "" && IsSpace(s[|s| - 1]) {
      RightSpacesAreSqueezed(s[..|s| - 1]);
      SpacesAreSqueezed([s[|s| - 1]]);
      SqueezeBoth(s[..|s| - 1], [s[|s| - 1]]);
      assert s == s[..|s| - 1] + [s[|s| - 1]];
    }
  }

  lemma BlankHasNoWords(s: string)
    requires TrimSpace(s) == ""
    ensures Squeeze(s) == ""
  {
    LeftSpacesAreSqueezed(s);
    RightSpacesAreSqueezed(TrimLeft(s));
  }

  function Joined(pieces: seq<string>): string {
    if pieces == [] then "" else Joined(pieces[..|pieces| - 1]) + pieces[|pieces| - 1]
  }

  lemma {:induction false} JoinedHead(head: string, rest: seq<string>)
    ensures Joined([head] + rest) == head + Joined(rest)
    decreases |rest|
  {
    var all := [head] + rest;
    if rest == [] {
      assert all[..0] == [];
    } else {
      var init := rest[..|rest| - 1];
      JoinedHead(head, init);
      assert all[..|all| - 1] == [head] + init;
      assert head + Joined(init) + rest[|rest| - 1] == head + (Joined(init) + rest[|rest| - 1]);
    }
  }

  lemma SplitStep(c: char, tail: string, rest: seq<string>)
    requires rest != [] && Squeeze(Joined(rest)) == Squeeze(tail)
    ensures Squeeze(Joined([[c] + rest[0]] + rest[1..])) == Squeeze([c] + tail)
  {
    hide Squeeze, Joined;
    JoinedHead([c] + rest[0], rest[1..]);
    JoinedHead(rest[0], rest[1..]);
    assert [rest[0]] + rest[1..] == rest;
    assert [c] + rest[0] + Joined(rest[1..]) == [c] + Joined(rest);
    SqueezeBoth([c], Joined(rest));
    SqueezeBoth([c], tail);
  }

  /** Splitting at spaces loses spaces only. */
  lemma {:induction false} SplitKeepsWords(s: string, sep: string)
    requires sep != "" && forall i | 0 <= i < |sep| :: IsSpace(sep[i])
    ensures Squeeze(Joined(Split(s, sep))) == Squeeze(s)
    decreases |s|
  {
    hide Squeeze, Joined;
    if sep <= s {
      var rest := Split(s[|sep|..], sep);
      SplitKeepsWords(s[|sep|..], sep);
      JoinedHead("", rest);
      assert "" + Joined(rest) == Joined(rest);
      SpacesAreSqueezed(sep);
      SqueezeBoth(sep, s[|sep|..]);
      assert s == sep + s[|sep|..] && "" + Squeeze(s[|sep|..]) == Squeeze(s[|sep|..]);
    } else if s == "" {
      JoinedHead("", []);
      NothingJoined();
      assert [""] + [] == [""];
    } else {
      SplitKeepsWords(s[1..], sep);
      SplitStep(s[0], s[1..], Split(s[1..], sep));
      assert s == [s[0]] + s[1..];
    }
  }

  /** strings.Join. */
  function JoinedBy(pieces: seq<string>, sep: string): string {
    if pieces == [] then ""
    else if |pieces| == 1 then pieces[0]
    else JoinedBy(pieces[..|pieces| - 1], sep) + sep + pieces[|pieces| - 1]
  }

  lemma {:induction false} JoinedByHead(head: string, rest: seq<string>, sep: string)
    requires rest != []
    ensures JoinedBy([head] + rest, sep) == head + sep + JoinedBy(rest, sep)
    decreases |rest|
  {
    var all, init, last := [head] + rest, rest[..|rest| - 1], rest[|rest| - 1];
    assert all[..|all| - 1] == [head] + init;
    if |rest| == 1 {
      assert [head] + init == [head];
    } else {
      JoinedByHead(head, init, sep);
      assert head + sep + (JoinedBy(init, sep) + sep + last) == head + sep + JoinedBy(init, sep) + sep + last;
    }
  }

  lemma JoinedByCons(c: char, rest: seq<string>, sep: string)
    requires rest != []
    ensures JoinedBy([[c] + rest[0]] + rest[1..], sep) == [c] + JoinedBy(rest, sep)
  {
    if |rest| == 1 {
      assert [[c] + rest[0]] + rest[1..] == [[c] + rest[0]];
    } else {
      JoinedByHead([c] + rest[0], rest[1..], sep);
      JoinedByHead(rest[0], rest[1..], sep);
      assert [rest[0]] + rest[1..] == rest;
    }
  }

  /** Splitting loses nothing: joined again by the separator, the pieces are the text. */
  lemma {:induction false} SplitJoins(s: string, sep: string)
    requires sep != ""
    ensures JoinedBy(Split(s, sep), sep) == s
    decreases |s|
  {
    hide JoinedBy;
    if sep <= s {
      SplitJoins(s[|sep|..], sep);
      JoinedByHead("", Split(s[|sep|..], sep), sep);
      assert "" + sep + s[|sep|..] == s;
    } else if s == "" {
      JoinedByOne("", sep);
    } else {
      SplitJoins(s[1..], sep);
      JoinedByCons(s[0], Split(s[1..], sep), sep);
      assert [s[0]] + s[1..] == s;
    }
  }

  lemma JoinedByOne(piece: string, sep: string)
    ensures JoinedBy([piece], sep) == piece
  {
  }

  lemma OccursLater(c: char, head: string, t: string, i: nat)
    requires i > 0
    ensures OccursAt([c] + head, t, i) <==> OccursAt(head, t, i - 1)
  {
    if i + |t| <= |head| + 1 {
      assert ([c] + head)[i..i + |t|] == head[i - 1..i - 1 + |t|];
    }
  }

  lemma NoSeparatorStarts(s: string, head: string, sep: string)
    requires s != "" && sep != "" && !(sep <= s) && head <= s[1..] && !Contains(head, sep)
    ensures [s[0]] + head <= s && !Contains([s[0]] + head, sep)
  {
    var first := [s[0]] + head;
    assert first == s[..|first|];
    forall i | 0 <= i <= |first| ensures !OccursAt(first, sep, i) {
      if i > 0 {
        OccursLater(s[0], head, sep, i);
      }
    }
  }

  /** The first piece begins the text, and no piece holds the separator. */
  lemma {:induction false} SplitCutsEverywhere(s: string, sep: string)
    requires sep != ""
    ensures Split(s, sep)[0] <= s
    ensures forall i | 0 <= i < |Split(s, sep)| :: !Contains(Split(s, sep)[i], sep)
    decreases |s|
  {
    hide Contains;
    if sep <= s {
      SplitCutsEverywhere(s[|sep|..], sep);
      NothingContained(sep);
    } else if s == "" {
      NothingContained(sep);
    } else {
      SplitCutsEverywhere(s[1..], sep);
      NoSeparatorStarts(s, Split(s[1..], sep)[0], sep);
    }
  }

  lemma NothingContained(sep: string)
    requires sep != ""
    ensures !Contains("", sep)
  {
  }

  lemma PieceHasNoMore(chunk: string, i: nat, j: nat, t: string)
    requires i <= j <= |chunk| && !Contains(chunk, t)
    ensures !Contains(chunk[i..j], t)
  {
    hide Contains;
    assert chunk == chunk[..i] + chunk[i..j] + chunk[j..];
    if Contains(chunk[i..j], t) {
      ContainedInPart(chunk, chunk[..i], chunk[i..j], chunk[j..], t);
    }
  }

  /** A paragraph is not blank, and has no line end at its ends and no empty line in it. */
  lemma {:induction false} ParagraphsAreClean(chunks: seq<string>)
    requires forall i | 0 <= i < |chunks| :: !Contains(chunks[i], "\n\n")
    ensures forall p | p in Paragraphs(chunks) ::
              TrimSpace(p) != "" && !Contains(p, "\n\n") && p != "" && p[0] != '\n' && p[|p| - 1] != '\n'
  {
    hide Contains, TrimLines;
    if chunks != [] {
      var last := chunks[|chunks| - 1];
      ParagraphsAreClean(chunks[..|chunks| - 1]);
      var i, j := TrimLinesCuts(last);
      PieceHasNoMore(last, i, j, "\n\n");
      assert TrimSpace("") == "";
    }
  }

  /** Replacing the line ends is splitting at the one kind and joining by the other. */
  lemma {:induction false} UnixLinesIsReplacement(s: string)
    ensures UnixLines(s) == JoinedBy(Split(s, "\r\n"), "\n")
    decreases |s|
  {
    hide JoinedBy;
    if "\r\n" <= s {
      UnixLinesIsReplacement(s[2..]);
      JoinedByHead("", Split(s[2..], "\r\n"), "\n");
      assert "" + "\n" + UnixLines(s[2..]) == "\n" + UnixLines(s[2..]);
    } else if s == "" {
      JoinedByOne("", "\n");
    } else {
      UnixLinesIsReplacement(s[1..]);
      JoinedByCons(s[0], Split(s[1..], "\r\n"), "\n");
    }
  }

  lemma {:induction false} TrimLinesCuts(s: string) returns (i: nat, j: nat)
    ensures i <= j <= |s| && TrimLines(s) == s[i..j]
    ensures forall k | 0 <= k < i || j <= k < |s| :: s[k] == '\n'
    ensures i < j ==> s[i] != '\n' && s[j - 1] != '\n'
    decreases |s|
  {
    if s != "" && s[0] == '\n' {
      i, j := TrimLinesCuts(s[1..]);
      assert s[1..][i..j] == s[i + 1..j + 1];
      assert forall k | 0 < k < |s| :: s[k] == s[1..][k - 1];
      i, j := i + 1, j + 1;
    } else if s != "" && s[|s| - 1] == '\n' {
      i, j := TrimLinesCuts(s[..|s| - 1]);
      assert s[..|s| - 1][i..j] == s[i..j];
    } else {
      i, j := 0, |s|;
    }
  }

  lemma NothingJoined()
    ensures Joined([]) == ""
  {
  }

  lemma {:induction false} ParagraphsKeepWords(chunks: seq<string>)
    ensures Squeeze(Joined(Paragraphs(chunks))) == Squeeze(Joined(chunks))
  {
    if chunks != [] {
      var init, chunk := chunks[..|chunks| - 1], chunks[|chunks| - 1];
      ParagraphsKeepWords(init);
      TrimKeepsWords(chunk);
      SqueezeBoth(Joined(init), chunk);
      if TrimSpace(TrimLines(chunk)) == "" {
        BlankHasNoWords(TrimLines(chunk));
      } else {
        var before := Paragraphs(init);
        assert Paragraphs(chunks)[..|before|] == before;
        SqueezeBoth(Joined(before), TrimLines(chunk));
      }
    }
  }

  /** Only tags of the page itself. */
  ghost predicate Ours(seen: Seen) {
    forall i | 0 <= i < |seen.tags| :: seen.tags[i] in FIXED
  }

  /** Read as our tags and this text. */
  ghost predicate Says(html: string, shown: string) {
    exists seen :: ReadsAs(html, seen) && Ours(seen) && seen.text == shown
  }

  lemma SaysBoth(a: string, b: string, u: string, v: string)
    requires Says(a, u) && Says(b, v)
    ensures Says(a + b, u + v)
  {
    hide ReadsAs;
    var x :| ReadsAs(a, x) && Ours(x) && x.text == u;
    var y :| ReadsAs(b, y) && Ours(y) && y.text == v;
    ReadsBoth(a, b, x, y);
    assert ReadsAs(a + b, Then(x, y)) && Ours(Then(x, y));
  }

  lemma SaysTag(body: string)
    requires body in FIXED
    ensures Says(Tag(body), BreakOf(body))
  {
    hide ReadsAs, BreakOf;
    TagsClose(body);
    ReadsTag(body);
    assert ReadsAs(Tag(body), Seen([body], BreakOf(body))) && Ours(Seen([body], BreakOf(body)));
  }

  lemma SaysText(s: string)
    ensures Says(Escape(s), s)
  {
    hide ReadsAs;
    ReadsEscaped(s);
    assert ReadsAs(Escape(s), Seen([], s)) && Ours(Seen([], s));
  }

  lemma BodyCloses()
    ensures Unclosed(BODY)
  {
  }

  lemma MainCloses()
    ensures Unclosed(MAIN)
  {
  }

  lemma TitleCloses()
    ensures Unclosed(TITLE)
  {
  }

  lemma ParagraphCloses()
    ensures Unclosed(PARAGRAPH)
  {
  }

  lemma SmallCloses()
    ensures Unclosed(SMALL)
  {
  }

  lemma TagsClose(body: string)
    requires body in FIXED
    ensures Unclosed(body)
  {
    BodyCloses();
    MainCloses();
    TitleCloses();
    ParagraphCloses();
    SmallCloses();
  }

  lemma {:induction false} LinesSay(html: string, shown: string, lines: seq<string>)
    requires Says(html, shown)
    ensures Says(AddLines(html, lines), shown + JoinedBy(lines, "\n"))
  {
    hide Says, Escape, Tag;
    if lines == [] {
      assert shown + "" == shown;
    } else {
      var init, last := lines[..|lines| - 1], lines[|lines| - 1];
      LinesSay(html, shown, init);
      var so, far := AddLines(html, init), shown + JoinedBy(init, "\n");
      SaysText(last);
      if |lines| > 1 {
        SaysTag("br");
        SaysBoth(so, Tag("br"), far, "\n");
        SaysBoth(so + Tag("br"), Escape(last), far + "\n", last);
        assert shown + (JoinedBy(init, "\n") + "\n" + last) == far + "\n" + last;
      } else {
        assert so + "" == so && shown + "" == shown;
        SaysBoth(so, Escape(last), shown, last);
      }
    }
  }

  lemma SaysTagAfter(html: string, shown: string, body: string)
    requires Says(html, shown) && body in FIXED
    ensures Says(html + Tag(body), shown + BreakOf(body))
  {
    hide Says, Tag;
    SaysTag(body);
    SaysBoth(html, Tag(body), shown, BreakOf(body));
  }

  /** A tag that breaks no line. */
  lemma SaysMarkAfter(html: string, shown: string, body: string)
    requires Says(html, shown) && body in FIXED && BreakOf(body) == ""
    ensures Says(html + Tag(body), shown)
  {
    hide Says, Tag;
    SaysTagAfter(html, shown, body);
    assert shown + "" == shown;
  }

  /** Paragraphs one below the other. */
  function Laid(paragraphs: seq<string>): string {
    if paragraphs == [] then ""
    else Laid(paragraphs[..|paragraphs| - 1]) + paragraphs[|paragraphs| - 1] + "\n\n"
  }

  lemma BreaksOfTags()
    ensures BreakOf("/p") == "\n\n" && BreakOf("/h1") == "\n\n" && BreakOf("br") == "\n"
    ensures forall body | body in FIXED && body !in {"/p", "/h1", "br"} :: BreakOf(body) == ""
  {
    assert |BODY| > 5 && |MAIN| > 5 && |TITLE| > 5 && |PARAGRAPH| > 5 && |SMALL| > 5;
  }

  lemma {:induction false} ParagraphsSay(html: string, shown: string, paragraphs: seq<string>)
    requires Says(html, shown)
    ensures Says(AddParagraphs(html, paragraphs), shown + Laid(paragraphs))
  {
    hide Says, AddLines, Tag, Split, BreakOf;
    if paragraphs == [] {
      assert shown + "" == shown;
    } else {
      var init, last := paragraphs[..|paragraphs| - 1], paragraphs[|paragraphs| - 1];
      ParagraphsSay(html, shown, init);
      var so, far := AddParagraphs(html, init), shown + Laid(init);
      BreaksOfTags();
      SaysMarkAfter(so, far, PARAGRAPH);
      LinesSay(so + Tag(PARAGRAPH), far, Split(last, "\n"));
      SplitJoins(last, "\n");
      SaysTagAfter(AddLines(so + Tag(PARAGRAPH), Split(last, "\n")), far + last, "/p");
      assert shown + (Laid(init) + last + "\n\n") == far + last + "\n\n";
    }
  }

  /** Letters, spaces, dots and dashes, which are not escaped. */
  predicate IsPlain(c: char) {
    'a' <= c <= 'z' || 'A' <= c <= 'Z' || c == ' ' || c == '.' || c == '-'
  }

  predicate NeedsNoEscape(s: string) {
    forall i | 0 <= i < |s| :: IsPlain(s[i])
  }

  lemma {:induction false} SaysPlain(s: string)
    requires NeedsNoEscape(s)
    ensures Escape(s) == s && Says(s, s)
  {
    hide Says, EscapeChar;
    SaysText(s);
    if s != "" {
      SaysPlain(s[1..]);
      PlainIsKept(s[0]);
      assert [s[0]] + s[1..] == s;
    }
  }

  lemma PlainIsKept(c: char)
    requires IsPlain(c)
    ensures EscapeChar(c) == [c]
  {
  }

  lemma FirstWordsArePlain()
    ensures NeedsNoEscape("This email contains " + "only a one-time link. ")
  {
  }

  lemma LastWordsArePlain()
    ensures NeedsNoEscape("The secret value " + "is never included " + "in email.")
  {
  }

  lemma PlainBoth(a: string, b: string)
    requires NeedsNoEscape(a) && NeedsNoEscape(b)
    ensures NeedsNoEscape(a + b)
  {
  }

  lemma NoticeNeedsNoEscape()
    ensures NeedsNoEscape(NOTICE)
  {
    hide NeedsNoEscape;
    FirstWordsArePlain();
    LastWordsArePlain();
    var first := "This email contains " + "only a one-time link. ";
    var last := "The secret value " + "is never included " + "in email.";
    PlainBoth(first, last);
    assert NOTICE == first + last;
  }

  lemma HeadSays()
    ensures Says(Head(), "")
  {
    hide Says, Tag, BreakOf;
    BreaksOfTags();
    SaysTag("!doctype html");
    SaysMarkAfter(Tag("!doctype html"), "", "html");
    SaysMarkAfter(Tag("!doctype html") + Tag("html"), "", BODY);
    SaysMarkAfter(Tag("!doctype html") + Tag("html") + Tag(BODY), "", MAIN);
    SaysMarkAfter(Tag("!doctype html") + Tag("html") + Tag(BODY) + Tag(MAIN), "", TITLE);
  }

  lemma FootSays()
    ensures Says(Foot(), NOTICE + "\n\n")
  {
    hide Says, Tag, BreakOf;
    BreaksOfTags();
    SaysTag(SMALL);
    NoticeNeedsNoEscape();
    SaysPlain(NOTICE);
    SaysBoth(Tag(SMALL), NOTICE, "", NOTICE);
    var shown := NOTICE + "\n\n";
    assert "" + NOTICE == NOTICE;
    SaysTagAfter(Tag(SMALL) + NOTICE, NOTICE, "/p");
    SaysMarkAfter(Tag(SMALL) + NOTICE + Tag("/p"), shown, "/main");
    SaysMarkAfter(Tag(SMALL) + NOTICE + Tag("/p") + Tag("/main"), shown, "/body");
    SaysMarkAfter(Tag(SMALL) + NOTICE + Tag("/p") + Tag("/main") + Tag("/body"), shown, "/html");
  }

  /** What the page shows: the subject, the paragraphs with their line ends, and the notice. */
  function Shown(subject: string, text: string): string {
    subject + "\n\n" + Laid(Paragraphs(Split(UnixLines(text), "\n\n"))) + (NOTICE + "\n\n")
  }

  lemma PageSays(subject: string, text: string)
    ensures Says(Page(subject, text), Shown(subject, text))
  {
    hide Says, Tag, Head, Foot, Escape, AddParagraphs, Paragraphs, Split, UnixLines, Laid, BreakOf;
    BreaksOfTags();
    HeadSays();
    SaysText(subject);
    SaysBoth(Head(), Escape(subject), "", subject);
    assert "" + subject == subject;
    SaysTagAfter(Head() + Escape(subject), subject, "/h1");
    var start, paragraphs := Head() + Escape(subject) + Tag("/h1"), Paragraphs(Split(UnixLines(text), "\n\n"));
    ParagraphsSay(start, subject + "\n\n", paragraphs);
    FootSays();
    SaysBoth(AddParagraphs(start, paragraphs), Foot(), subject + "\n\n" + Laid(paragraphs), NOTICE + "\n\n");
  }

  lemma {:induction false} LaidKeepsWords(paragraphs: seq<string>)
    ensures Squeeze(Laid(paragraphs)) == Squeeze(Joined(paragraphs))
  {
    hide Squeeze;
    if paragraphs != [] {
      var init, last := paragraphs[..|paragraphs| - 1], paragraphs[|paragraphs| - 1];
      LaidKeepsWords(init);
      SqueezeBoth(Joined(init), last);
      SqueezeBoth(Laid(init), last);
      SqueezeBoth(Laid(init) + last, "\n\n");
      SpacesAreSqueezed("\n\n");
      assert Squeeze(Laid(init) + last) + "" == Squeeze(Laid(init) + last);
    }
  }

  lemma ShownWords(subject: string, text: string)
    ensures Squeeze(Shown(subject, text)) == Squeeze(subject) + Squeeze(text) + Squeeze(NOTICE)
  {
    hide Squeeze, Laid, Paragraphs, Split, UnixLines, Joined;
    var chunks := Split(UnixLines(text), "\n\n");
    LaidKeepsWords(Paragraphs(chunks));
    ParagraphsKeepWords(chunks);
    SplitKeepsWords(UnixLines(text), "\n\n");
    UnixKeepsWords(text);
    SpacesAreSqueezed("\n\n");
    SqueezeBoth(subject, "\n\n");
    SqueezeBoth(subject + "\n\n", Laid(Paragraphs(chunks)));
    SqueezeBoth(NOTICE, "\n\n");
    SqueezeBoth(subject + "\n\n" + Laid(Paragraphs(chunks)), NOTICE + "\n\n");
    assert Squeeze(subject) + "" == Squeeze(subject) && Squeeze(NOTICE) + "" == Squeeze(NOTICE);
  }

  /** Whatever subject and text are, a reader of the page finds the page's own tags and no other; laid out, the page is
      the subject, the paragraphs with their line ends, and the notice; and that is, spaces apart, exactly the subject,
      the text and the notice. */
  lemma PageIsInert(subject: string, text: string)
    ensures Ours(Read(Page(subject, text))) && Read(Page(subject, text)).text == Shown(subject, text)
    ensures Squeeze(Read(Page(subject, text)).text) == Squeeze(subject) + Squeeze(text) + Squeeze(NOTICE)
  {
    hide Page, Squeeze, Shown;
    PageSays(subject, text);
    ShownWords(subject, text);
    var page := Page(subject, text);
    var seen :| ReadsAs(page, seen) && Ours(seen) && seen.text == Shown(subject, text);
    assert page + "" == page && Read("") == Seen([], "");
    assert Then(seen, Read("")) == seen;
  }
}
