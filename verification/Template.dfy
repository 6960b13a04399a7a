/** Rendering of the delivery e-mail: choice of templates, limits, placeholders, and the link that must be in the
    text. */
module Template {
  import Html
  import opened Placeholders
  import opened Text
  import opened Wrappers

  const DEFAULT_SUBJECT := "A secure one-time secret has been shared with you"
  const DEFAULT_MESSAGE :=
    "Hello {{recipient_name}},\n\n" +
    "A secure one-time secret has been shared with you through {{product_name}}.\n\n" +
    "The secret can only be viewed once and will expire at {{expires_at}}.\n\n" +
    "Open the secure secret using the link below:\n\n" +
    "{{secure_link}}\n\n" +
    "Do not forward this email or share the link with anyone else.\n\n" +
    "Regards,\n{{sender_name}}"
  const LINK_NOTICE := "\n\nOpen the secure secret using this one-time link:\n"

  const SUBJECT_NAMES: set<string> := {"secret_title", "product_name", "sender_name"}
  const MESSAGE_NAMES: set<string> := {
    "secure_link", "secret_title", "recipient_name", "recipient_email", "sender_name",
    "expires_at", "expires_in", "product_name", "support_email"
  }

  datatype Source = Fallback | GlobalDefault | PerDelivery

  /** The three templates of the settings or of an override. */
  datatype Wording = Wording(subject: string, message: string, footer: string)

  datatype Letter = Letter(subject: string, text: string, html: string, source: Source)

  /** The values a template may use; the expiry is given as its formatted text, if it is set. */
  datatype Context = Context(
    secureLink: string, secretTitle: string, recipientName: string, recipientEmail: string, senderName: string,
    expiresAt: Option<string>, expiresIn: string, productName: string, supportEmail: string)

  function Prefer(first: string, second: string): string {
    if TrimSpace(first) != "" then first else second
  }

  predicate HasWords(w: Wording) {
    TrimSpace(w.subject) != "" || TrimSpace(w.message) != "" || TrimSpace(w.footer) != ""
  }

  /** The wording an override leaves when it says nothing. */
  function Overriding(o: Option<Wording>): Wording {
    if o.Some? then o.value else Wording("", "", "")
  }

  /** Subject and message fall back one by one; the footer goes with the source. */
  method ResolveTemplates(settings: Wording, override: Option<Wording>) returns (w: Wording, source: Source)
    ensures source == ResolvedSource(settings, override) && w == Resolved(settings, override)
    ensures var o := if override.Some? then override.value else Wording("", "", "");
            var said := TrimSpace(o.subject) != "" || TrimSpace(o.message) != "" || TrimSpace(o.footer) != "";
            var given := || TrimSpace(settings.subject) != "" || TrimSpace(settings.message) != ""
                         || TrimSpace(settings.footer) != "";
            && source == (if said then PerDelivery else if given then GlobalDefault else Fallback)
            && w.subject == (if TrimSpace(o.subject) != "" then o.subject
                             else if TrimSpace(settings.subject) != "" then settings.subject else DEFAULT_SUBJECT)
            && w.message == (if TrimSpace(o.message) != "" then o.message
                             else if TrimSpace(settings.message) != "" then settings.message else DEFAULT_MESSAGE)
            && w.footer == (if said then o.footer else if given then settings.footer else "")
  {
    source := Fallback;
    var subject, message, footer := DEFAULT_SUBJECT, DEFAULT_MESSAGE, "";
    if TrimSpace(settings.subject) != "" || TrimSpace(settings.message) != "" || TrimSpace(settings.footer) != "" {
      source := GlobalDefault;
      if TrimSpace(settings.subject) != "" {
        subject := settings.subject;
      }
      if TrimSpace(settings.message) != "" {
        message := settings.message;
      }
      footer := settings.footer;
    }
    if override.Some? && (TrimSpace(override.value.subject) != "" || TrimSpace(override.value.message) != ""
                          || TrimSpace(override.value.footer) != "") {
      source := PerDelivery;
      if TrimSpace(override.value.subject) != "" {
        subject := override.value.subject;
      }
      if TrimSpace(override.value.message) != "" {
        message := override.value.message;
      }
      footer := override.value.footer;
    }
    w := Wording(subject, message, footer);
    assert TrimSpace("") == "";
  }

  function ResolvedSource(settings: Wording, override: Option<Wording>): Source {
    if HasWords(Overriding(override)) then PerDelivery else if HasWords(settings) then GlobalDefault else Fallback
  }

  function Resolved(settings: Wording, override: Option<Wording>): Wording {
    Wording(
      Prefer(Overriding(override).subject, Prefer(settings.subject, DEFAULT_SUBJECT)),
      Prefer(Overriding(override).message, Prefer(settings.message, DEFAULT_MESSAGE)),
      match ResolvedSource(settings, override)
      case PerDelivery => Overriding(override).footer
      case GlobalDefault => settings.footer
      case Fallback => "")
  }

  predicate Disallowed(c: char) {
    c < ' ' && c != '\n' && c != '\r' && c != '\t'
  }

  predicate Printable(s: string) {
    forall i | 0 <= i < |s| :: !Disallowed(s[i])
  }

  method HasDisallowedControl(value: string) returns (found: bool)
    ensures found <==> !Printable(value)
    ensures found <==> exists i | 0 <= i < |value| :: value[i] < ' ' && value[i] !in "\n\r\t"
  {
    for i := 0 to |value|
      invariant forall k | 0 <= k < i :: !Disallowed(value[k])
    {
      if value[i] < ' ' && value[i] != '\n' && value[i] != '\r' && value[i] != '\t' {
        return true;
      }
    }
    found := false;
  }

  /** What is wrong with a wording before any placeholder is looked at. */
  function Fault(w: Wording): Option<TemplateError> {
    if Len(w.subject) > 255 then Some(SubjectTooLong)
    else if Len(w.message) > 10 * 1024 then Some(MessageTooLong)
    else if Len(w.footer) > 2 * 1024 then Some(FooterTooLong)
    else if !Printable(w.subject) || !Printable(w.message) || !Printable(w.footer) then Some(DisallowedControl)
    else None
  }

  method ValidateTemplateInput(w: Wording) returns (fault: Option<TemplateError>)
    ensures fault == Fault(w)
    ensures fault.None? <==>
            && Len(w.subject) <= 255 && Len(w.message) <= 10240 && Len(w.footer) <= 2048
            && forall c | c in w.subject + w.message + w.footer :: c >= ' ' || c in "\n\r\t"
    ensures fault.Some? ==>
              fault.value == (if Len(w.subject) > 255 then SubjectTooLong
                              else if Len(w.message) > 10240 then MessageTooLong
                              else if Len(w.footer) > 2048 then FooterTooLong
                              else DisallowedControl)
  {
    if Len(w.subject) > 255 {
      return Some(SubjectTooLong);
    }
    if Len(w.message) > 10 * 1024 {
      return Some(MessageTooLong);
    }
    if Len(w.footer) > 2 * 1024 {
      return Some(FooterTooLong);
    }
    PrintableIs(w);
    var values := [w.subject, w.message, w.footer];
    for i := 0 to |values|
      invariant forall k | 0 <= k < i :: Printable(values[k])
    {
      var found := HasDisallowedControl(values[i]);
      if found {
        assert values[0] == w.subject && values[1] == w.message && values[2] == w.footer;
        return Some(DisallowedControl);
      }
    }
    assert Printable(values[0]) && Printable(values[1]) && Printable(values[2]);
    fault := None;
  }

  lemma PrintableIs(w: Wording)
    ensures Printable(w.subject) && Printable(w.message) && Printable(w.footer) <==>
            forall c | c in w.subject + w.message + w.footer :: c >= ' ' || c in "\n\r\t"
  {
    var all := w.subject + w.message + w.footer;
    assert forall i | 0 <= i < |w.subject| :: w.subject[i] in all;
    assert forall i | 0 <= i < |w.message| :: w.message[i] in all;
    assert forall i | 0 <= i < |w.footer| :: w.footer[i] in all;
    assert forall c | c in all :: c in w.subject || c in w.message || c in w.footer;
  }

  function OrElse(s: string, other: string): string {
    if TrimSpace(s) != "" then TrimSpace(s) else other
  }

  function PlaceholderValues(ctx: Context): map<string, string> {
    var productName := OrElse(ctx.productName, "SecureShare");
    map[
      "secure_link" := TrimSpace(ctx.secureLink),
      "secret_title" := TrimSpace(ctx.secretTitle),
      "recipient_name" := OrElse(ctx.recipientName, "there"),
      "recipient_email" := TrimSpace(ctx.recipientEmail),
      "sender_name" := OrElse(ctx.senderName, productName),
      "expires_at" := if ctx.expiresAt.Some? then ctx.expiresAt.value else "the configured expiration time",
      "expires_in" := TrimSpace(ctx.expiresIn),
      "product_name" := productName,
      "support_email" := TrimSpace(ctx.supportEmail)
    ]
  }

  /** Each value by name, with its default. */
  lemma ValuesAre(ctx: Context)
    ensures var v, product := PlaceholderValues(ctx), TrimSpace(ctx.productName);
            var sender := TrimSpace(ctx.senderName);
            && v.Keys == {"secure_link", "secret_title", "recipient_name", "recipient_email", "sender_name",
                          "expires_at", "expires_in", "product_name", "support_email"}
            && v["secure_link"] == TrimSpace(ctx.secureLink) && v["secret_title"] == TrimSpace(ctx.secretTitle)
            && v["recipient_email"] == TrimSpace(ctx.recipientEmail) && v["expires_in"] == TrimSpace(ctx.expiresIn)
            && v["support_email"] == TrimSpace(ctx.supportEmail)
            && v["recipient_name"] == (if TrimSpace(ctx.recipientName) != "" then TrimSpace(ctx.recipientName)
                                       else "there")
            && v["product_name"] == (if product != "" then product else "SecureShare")
            && v["sender_name"] == (if sender != "" then sender else if product != "" then product else "SecureShare")
            && v["expires_at"] == (match ctx.expiresAt case Some(t) => t case None => "the configured expiration time")
  {
    hide TrimSpace;
  }

  lemma Wordy(s: string)
    requires s in {"secure_link", "secret_title", "recipient_name", "recipient_email", "sender_name"}
             || s in {"expires_at", "expires_in", "product_name", "support_email"}
    ensures Word(s)
  {
  }

  lemma Blanks(s: string)
    requires forall c | c in s :: c == ' ' || c == '\t' || c == '\n' || c == '\r' || c == '\U{000C}'
    ensures Blank(s)
  {
    assert forall i | 0 <= i < |s| :: s[i] in s;
  }

  /** The expression recognises each known name between braces, with any blanks around it. */
  lemma NamesAreRecognised(left: string, name: string, right: string)
    requires name in MESSAGE_NAMES
    requires forall c | c in left :: c == ' ' || c == '\t' || c == '\n' || c == '\r' || c == '\U{000C}'
    requires forall c | c in right :: c == ' ' || c == '\t' || c == '\n' || c == '\r' || c == '\U{000C}'
    ensures IsPlaceholder("{{" + left + name + right + "}}", name)
  {
    hide Word, Blank, IsPlaceholder;
    Wordy(name);
    Blanks(left);
    Blanks(right);
    PlaceholderOf(left, name, right);
  }

  lemma {:induction false} TrimLineEndsCuts(s: string) returns (k: nat)
    ensures k <= |s| && TrimLineEnds(s) == s[..k] && (k > 0 ==> s[k - 1] != '\r' && s[k - 1] != '\n')
    ensures forall i | k <= i < |s| :: s[i] == '\r' || s[i] == '\n'
  {
    if s != "" && s[|s| - 1] in "\r\n" {
      k := TrimLineEndsCuts(s[..|s| - 1]);
      assert s[..|s| - 1][..k] == s[..k];
    } else {
      k := |s|;
      assert s[..k] == s;
    }
  }

  /** strings.TrimRight with the cutset of line ends. */
  function TrimLineEnds(s: string): string {
    if s != "" && s[|s| - 1] in "\r\n" then TrimLineEnds(s[..|s| - 1]) else s
  }

  /** Some placeholder of the template has this name. */
  ghost predicate Mentions(template: string, name: string) {
    exists m :: IsMatch(template, m) && m.name == name
  }

  /** The body: the rendered message, with the link appended when the message does not mention it. */
  ghost function Body(message: string, values: map<string, string>, link: string): Result<string, TemplateError> {
    var r := Rendered(message, values, MESSAGE_NAMES);
    if r.Failure? || Mentions(message, "secure_link") then r else Success(TrimLineEnds(r.value) + LINK_NOTICE + link)
  }

  ghost function Footer(footer: string, values: map<string, string>): Result<string, TemplateError> {
    if TrimSpace(footer) == "" then Success("")
    else
      var r := Rendered(footer, values, MESSAGE_NAMES);
      if r.Failure? then r else Success("\n\n" + r.value)
  }

  ghost function Subject(subject: string, values: map<string, string>): Result<string, TemplateError> {
    var r := Rendered(subject, values, SUBJECT_NAMES);
    if r.Success? && Len(r.value) > 255 then Failure(RenderedSubjectTooLong) else r
  }

  /** The letter: the parts succeed or fail one by one, and the first failure is reported. */
  ghost function Composed(w: Wording, source: Source, ctx: Context): Result<Letter, TemplateError> {
    var values := PlaceholderValues(ctx);
    var subject := Subject(w.subject, values);
    var body := Body(w.message, values, ctx.secureLink);
    var footer := Footer(w.footer, values);
    if Fault(w).Some? then Failure(Fault(w).value)
    else if subject.Failure? then Failure(subject.error)
    else if body.Failure? then Failure(body.error)
    else if footer.Failure? then Failure(footer.error)
    else
      var text := body.value + footer.value;
      Success(Letter(subject.value, text, Html.Page(subject.value, text), source))
  }

  /** What a letter is made of: the rendered subject; the rendered message, with the notice and the link after it if it
      does not ask for the link; and the rendered footer, an empty line below, if there is one. */
  lemma LetterIs(w: Wording, source: Source, ctx: Context)
    ensures var values := PlaceholderValues(ctx);
            var subject := Rendered(w.subject, values, {"secret_title", "product_name", "sender_name"});
            var all := {"secure_link", "secret_title", "recipient_name", "recipient_email", "sender_name", "expires_at",
                        "expires_in", "product_name", "support_email"};
            var message, footer := Rendered(w.message, values, all), Rendered(w.footer, values, all);
            var letter := Composed(w, source, ctx);
            && (letter.Success? <==> Fault(w).None? && subject.Success? && Len(subject.value) <= 255 && message.Success?
                                     && (TrimSpace(w.footer) == "" || footer.Success?))
            && (letter.Failure? ==>
                  letter.error == (if Fault(w).Some? then Fault(w).value
                                   else if subject.Failure? then subject.error
                                   else if Len(subject.value) > 255 then RenderedSubjectTooLong
                                   else if message.Failure? then message.error
                                   else footer.error))
            && (letter.Success? ==>
                  var asked := exists m :: IsMatch(w.message, m) && m.name == "secure_link";
                  && letter.value.subject == subject.value && letter.value.source == source
                  && letter.value.text ==
                      (if asked then message.value
                       else TrimLineEnds(message.value) +
                            "\n\nOpen the secure secret using this one-time link:\n" + ctx.secureLink) +
                      (if TrimSpace(w.footer) == "" then "" else "\n\n" + footer.value)
                  && letter.value.html == Html.Page(subject.value, letter.value.text))
  {
    hide Rendered, PlaceholderValues, Fault, IsMatch, TrimLineEnds, TrimSpace, Html.Page;
  }

  method Render(settings: Wording, override: Option<Wording>, ctx: Context) returns (r: Result<Letter, TemplateError>)
    ensures r == Composed(Resolved(settings, override), ResolvedSource(settings, override), ctx)
    ensures r.Success? ==> Len(r.value.subject) <= 255 && Contains(r.value.text, TrimSpace(ctx.secureLink))
  {
    hide IsMatch, Rendered, PlaceholderValues, Fault, Contains, Html.Page;
    var w, source := ResolveTemplates(settings, override);
    var fault := ValidateTemplateInput(w);
    if fault.Some? {
      return Failure(fault.value);
    }
    var values := PlaceholderValues(ctx);
    var subject := RenderPlaceholders(w.subject, values, SUBJECT_NAMES);
    if subject.Failure? {
      return Failure(subject.error);
    }
    if Len(subject.value) > 255 {
      return Failure(RenderedSubjectTooLong);
    }
    var message := RenderPlaceholders(w.message, values, MESSAGE_NAMES);
    if message.Failure? {
      return Failure(message.error);
    }
    var text := message.value;
    var hasLink := ContainsPlaceholder(w.message, "secure_link");
    if !hasLink {
      text := TrimLineEnds(text) + LINK_NOTICE + ctx.secureLink;
    }
    if TrimSpace(w.footer) != "" {
      var footer := RenderPlaceholders(w.footer, values, MESSAGE_NAMES);
      if footer.Failure? {
        return Failure(footer.error);
      }
      text := text + ("\n\n" + footer.value);
    } else {
      assert text + "" == text;
    }
    var html := Html.TextToHtml(subject.value, text);
    r := Success(Letter(subject.value, text, html, source));
    TextHasTheLink(w, source, ctx);
  }

  lemma MentionedValueIsFilledIn(template: string, values: map<string, string>, m: Match)
    requires IsMatch(template, m)
    ensures Contains(Filled(Parsed(template, 0), values), Lookup(values, m.name))
  {
    hide IsMatch, Contains, Parsed, Filled, Lookup, Holes;
    ScanFindsEveryMatch(template, 0, m);
    HolesAreTheMatches(template, 0);
    FilledHasValue(Parsed(template, 0), values, m);
  }

  lemma AppendedLinkIsThere(text: string, link: string)
    ensures Contains(text + link, TrimSpace(link))
  {
    hide Contains, TrimSpace, Trimmed;
    var i, j := TrimCuts(link);
    assert link == link[..i] + TrimSpace(link) + link[j..];
    ContainedAt(link, link[..i], TrimSpace(link), link[j..]);
    assert text + link == text + link + "";
    ContainedInPart(text + link, text, link, "", TrimSpace(link));
  }

  lemma BodyHasTheLink(message: string, values: map<string, string>, link: string)
    requires Lookup(values, "secure_link") == TrimSpace(link) && Body(message, values, link).Success?
    ensures Contains(Body(message, values, link).value, TrimSpace(link))
  {
    hide IsMatch, Contains, Rendered, Lookup, TrimSpace, TrimLineEnds, HasBraces, Filled, Parsed;
    if Mentions(message, "secure_link") {
      RenderingSucceedsIff(message, values, MESSAGE_NAMES);
      var m :| IsMatch(message, m) && m.name == "secure_link";
      MentionedValueIsFilledIn(message, values, m);
    } else {
      var text := Rendered(message, values, MESSAGE_NAMES).value;
      AppendedLinkIsThere(TrimLineEnds(text) + LINK_NOTICE, link);
    }
  }

  lemma LinkValue(ctx: Context)
    ensures Lookup(PlaceholderValues(ctx), "secure_link") == TrimSpace(ctx.secureLink)
  {
    hide TrimSpace, OrElse;
  }

  /** Whatever the template says, a letter that is rendered carries the link. */
  lemma TextHasTheLink(w: Wording, source: Source, ctx: Context)
    ensures match Composed(w, source, ctx)
            case Failure(_) => true
            case Success(letter) => Contains(letter.text, TrimSpace(ctx.secureLink))
  {
    hide Contains, PlaceholderValues, Body, Footer, Subject, Fault, TrimSpace, Lookup, Html.Page;
    if Composed(w, source, ctx).Success? {
      var values := PlaceholderValues(ctx);
      LinkValue(ctx);
      BodyHasTheLink(w.message, values, ctx.secureLink);
      var body, footer := Body(w.message, values, ctx.secureLink).value, Footer(w.footer, values).value;
      assert body + footer == "" + body + footer;
      ContainedInPart(body + footer, "", body, footer, TrimSpace(ctx.secureLink));
    }
  }

  lemma {:induction false} FilledByNames(p: Parse, v: map<string, string>, w: map<string, string>, names: set<string>)
    requires forall m | m in Holes(p) :: m.name in names
    requires forall name | name in names :: Lookup(v, name) == Lookup(w, name)
    ensures Filled(p, v) == Filled(p, w)
  {
    if p.Hole? {
      assert p.hole in Holes(p);
      assert forall m | m in Holes(p.rest) :: m in Holes(p);
      FilledByNames(p.rest, v, w, names);
    }
  }

  /** Only the allowed values can reach a rendered text. */
  lemma OnlyAllowedValuesMatter(template: string, v: map<string, string>, w: map<string, string>, allowed: set<string>)
    requires forall name | name in allowed :: Lookup(v, name) == Lookup(w, name)
    ensures Rendered(template, v, allowed) == Rendered(template, w, allowed)
  {
    var p := Parsed(template, 0);
    FirstUnsupportedIsTheFirst(Holes(p), allowed);
    if FirstUnsupported(Holes(p), allowed).None? {
      FilledByNames(p, v, w, allowed);
    }
  }

  /** The subject line cannot carry the link, nor the recipient's name and address. */
  lemma SubjectIsBlindToTheLink(subject: string, ctx: Context, other: Context)
    requires ctx.secretTitle == other.secretTitle && ctx.productName == other.productName
    requires ctx.senderName == other.senderName
    ensures Subject(subject, PlaceholderValues(ctx)) == Subject(subject, PlaceholderValues(other))
  {
    hide TrimSpace, OrElse, Rendered;
    forall name | name in SUBJECT_NAMES
      ensures Lookup(PlaceholderValues(ctx), name) == Lookup(PlaceholderValues(other), name)
    {
    }
    OnlyAllowedValuesMatter(subject, PlaceholderValues(ctx), PlaceholderValues(other), SUBJECT_NAMES);
  }

  /** The HTML part shows what the text part says and the notice, and holds no tag but the page's own, whatever
      markup the templates and the values contain. */
  lemma HtmlSaysTheText(w: Wording, source: Source, ctx: Context)
    ensures match Composed(w, source, ctx)
            case Failure(_) => true
            case Success(letter) =>
              && Html.Ours(Html.Read(letter.html))
              && Html.Read(letter.html).text == Html.Shown(letter.subject, letter.text)
              && Html.Squeeze(Html.Read(letter.html).text) ==
                 Html.Squeeze(letter.subject) + Html.Squeeze(letter.text) + Html.Squeeze(Html.NOTICE)
  {
    hide PlaceholderValues, Body, Footer, Subject, Fault, Html.Page, Html.Read, Html.Squeeze, Html.Shown;
    if Composed(w, source, ctx).Success? {
      Html.PageIsInert(Composed(w, source, ctx).value.subject, Composed(w, source, ctx).value.text);
    }
  }
}
