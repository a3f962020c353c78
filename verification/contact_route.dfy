/** The contact endpoint (`POST` and `GET`). One call of `Post` charges the
    rate limiter, then checks the form in a fixed order, then the mail
    credentials, then hands the sanitised message to the mail transport.
    The clock, the environment, the parsed body and the transport's outcome
    are parameters; composing the HTML and text bodies is not modelled. */
module ContactRoute {
  import opened Common
  import opened ContactText
  import EmailPattern
  import RateLimit

  const NameLimit: nat := 100
  const ContentLimit: nat := 5000
  const DefaultRecipient := "marcus.cuong.doan@gmail.com"
  const AuthFailureMarker := "Invalid login"

  const TooManyText := "Too many requests. Please try again later."
  const RequiredText := "Name and content are required fields."
  const NameTooLongText := "Name is too long (max 100 characters)."
  const ContentTooLongText := "Message is too long (max 5000 characters)."
  const BadEmailText := "Invalid email format."
  const NotConfiguredText := "Email service is not configured. Please contact the administrator."
  const AuthFailedText := "Email service authentication failed. Please contact the administrator."
  const SendFailedText := "Failed to send email. Please try again later."
  const SentText := "Email sent successfully!"
  const NotAllowedText := "Method not allowed"

  /** A string field of the JSON body: missing (or null) or a string. */
  datatype Field = Absent | Text(text: string)

  /** JavaScript truthiness of such a field: present and non-empty. */
  predicate Given(f: Field) { f.Text? && f.text != [] }

  datatype Form = Form(name: Field, email: Field, content: Field)

  /** A value thrown inside the handler: whether it is an `Error`, and its
      message. */
  datatype Thrown = Thrown(isError: bool, message: string)

  /** `await request.json()`: the form, or the exception parsing threw. */
  datatype Body = Parsed(form: Form) | Unparsable(thrown: Thrown)

  /** The `x-forwarded-for` and `x-real-ip` headers (`null` when absent). */
  datatype Headers = Headers(forwardedFor: Option<string>, realIp: Option<string>)

  /** `EMAIL_USER`, `EMAIL_PASS`, `EMAIL_TO`; the empty string stands for an
      unset variable, which JavaScript treats the same way. */
  datatype Env = Env(user: string, pass: string, to: string)

  /** What `transporter.verify()` and `transporter.sendMail()` did. */
  datatype Transport = Delivered | VerifyThrew(thrown: Thrown) | SendThrew(thrown: Thrown)

  datatype Payload = Message(text: string) | Problem(text: string)

  datatype Response = Response(status: nat, payload: Payload)

  /** The mail options handed to `sendMail`, without the composed bodies. */
  datatype Mail = Mail(from: string, to: string, subject: string,
                       replyTo: Option<string>,
                       name: string, email: string, content: string)

  datatype Outcome = Outcome(table: RateLimit.Table, response: Response,
                             attempted: Option<Mail>)

  predicate Nonempty(header: Option<string>) { header.Some? && header.value != [] }

  /** `x-forwarded-for || x-real-ip || "unknown"`: the first header that is
      present and non-empty, and one shared bucket for clients with
      neither. */
  function ClientAddress(h: Headers): (ip: string)
    ensures ip != []
    ensures Nonempty(h.forwardedFor) ==> ip == h.forwardedFor.value
    ensures !Nonempty(h.forwardedFor) && Nonempty(h.realIp) ==> ip == h.realIp.value
    ensures !Nonempty(h.forwardedFor) && !Nonempty(h.realIp) ==> ip == "unknown"
  {
    if Nonempty(h.forwardedFor) then h.forwardedFor.value
    else if Nonempty(h.realIp) then h.realIp.value
    else "unknown"
  }

  /** Every field check of `POST` passes: name and content given, within
      their length limits, and the e-mail, when given, matches the
      pattern. */
  predicate ValidForm(f: Form) {
    && Given(f.name) && Given(f.content)
    && |f.name.text| <= NameLimit
    && |f.content.text| <= ContentLimit
    && (Given(f.email) ==> EmailPattern.Matches(f.email.text))
  }

  predicate Configured(env: Env) { env.user != [] && env.pass != [] }

  /** The `catch` block: an `Error` whose message mentions a failed login is
      a configuration problem (503); anything else is a generic 500. */
  function Caught(e: Thrown): (r: Response)
    ensures r.status == 503 <==> e.isError && Contains(e.message, AuthFailureMarker)
    ensures r.status in {500, 503}
    ensures r.payload == Problem(if r.status == 503 then AuthFailedText else SendFailedText)
  {
    if e.isError && Contains(e.message, AuthFailureMarker) then Response(503, Problem(AuthFailedText))
    else Response(500, Problem(SendFailedText))
  }

  /** The first failing field check, in the order the handler makes them. */
  function FieldProblem(f: Form): (r: Option<string>)
    ensures r.None? <==> ValidForm(f)
  {
    if !Given(f.name) || !Given(f.content) then Some(RequiredText)
    else if |f.name.text| > NameLimit then Some(NameTooLongText)
    else if |f.content.text| > ContentLimit then Some(ContentTooLongText)
    else if Given(f.email) && !EmailPattern.Matches(f.email.text) then Some(BadEmailText)
    else None
  }

  /** The options `POST` hands to `sendMail`: sanitised fields, the
      configured or default recipient, and a reply-to address exactly when
      the sanitised e-mail is non-empty. */
  function Compose(f: Form, env: Env): (m: Mail)
    ensures BracketFree(m.name) && BracketFree(m.email) && BracketFree(m.content)
    ensures |m.name| <= MaxLength && |m.email| <= MaxLength && |m.content| <= MaxLength
    ensures m.replyTo.Some? <==> m.email != []
    ensures m.replyTo.Some? ==> m.replyTo.value == m.email
    ensures m.to == if env.to != [] then env.to else DefaultRecipient
    ensures m.name == Sanitize(if f.name.Text? then f.name.text else "")
    ensures m.email == if Given(f.email) then Sanitize(f.email.text) else ""
    ensures m.content == Sanitize(if f.content.Text? then f.content.text else "")
    ensures m.from == env.user && m.subject == "Portfolio Contact: Message from " + m.name
  {
    var name := Sanitize(if f.name.Text? then f.name.text else "");
    var email := if Given(f.email) then Sanitize(f.email.text) else "";
    var content := Sanitize(if f.content.Text? then f.content.text else "");
    Mail(env.user,
         if env.to != [] then env.to else DefaultRecipient,
         "Portfolio Contact: Message from " + name,
         if email != [] then Some(email) else None,
         name, email, content)
  }

  /** `POST` from a client with headers `h` at clock `now`. */
  function Post(t: RateLimit.Table, now: int, h: Headers, body: Body, env: Env,
                transport: Transport): (o: Outcome)
    ensures o.table == RateLimit.CheckRateLimit(t, ClientAddress(h), now).table
    ensures o.response.status in {200, 400, 429, 500, 503}
    ensures o.response.status == 429 <==> !RateLimit.CheckRateLimit(t, ClientAddress(h), now).allowed
    ensures o.response.status == 400 <==>
              && RateLimit.CheckRateLimit(t, ClientAddress(h), now).allowed
              && body.Parsed? && !ValidForm(body.form)
    ensures o.response.status == 200 <==>
              && RateLimit.CheckRateLimit(t, ClientAddress(h), now).allowed
              && body.Parsed? && ValidForm(body.form) && Configured(env) && transport.Delivered?
    ensures o.attempted.Some? ==>
              && RateLimit.CheckRateLimit(t, ClientAddress(h), now).allowed
              && body.Parsed? && ValidForm(body.form) && Configured(env)
              && o.attempted.value == Compose(body.form, env)
    ensures o.response.status == 200 ==> o.attempted.Some? && o.response.payload == Message(SentText)
    ensures o.response.status == 400 ==> o.response.payload == Problem(FieldProblem(body.form).value)
    ensures RateLimit.CheckRateLimit(t, ClientAddress(h), now).allowed && body.Unparsable? ==>
              o.response == Caught(body.thrown) && o.attempted.None?
    ensures RateLimit.CheckRateLimit(t, ClientAddress(h), now).allowed
            && body.Parsed? && ValidForm(body.form) && !Configured(env) ==>
              o.response == Response(503, Problem(NotConfiguredText)) && o.attempted.None?
    ensures RateLimit.CheckRateLimit(t, ClientAddress(h), now).allowed
            && body.Parsed? && ValidForm(body.form) && Configured(env) ==>
              && (transport.VerifyThrew? ==> o.response == Caught(transport.thrown) && o.attempted.None?)
              && (transport.SendThrew? ==> o.response == Caught(transport.thrown))
              && (!transport.VerifyThrew? ==> o.attempted == Some(Compose(body.form, env)))
  {
    var d := RateLimit.CheckRateLimit(t, ClientAddress(h), now);
    if !d.allowed then Outcome(d.table, Response(429, Problem(TooManyText)), None)
    else match body
      case Unparsable(e) => Outcome(d.table, Caught(e), None)
      case Parsed(f) =>
        match FieldProblem(f)
        case Some(text) => Outcome(d.table, Response(400, Problem(text)), None)
        case None =>
          if !Configured(env) then
            Outcome(d.table, Response(503, Problem(NotConfiguredText)), None)
          else
            var mail := Compose(f, env);
            match transport
            case Delivered => Outcome(d.table, Response(200, Message(SentText)), Some(mail))
            case VerifyThrew(e) => Outcome(d.table, Caught(e), None)
            case SendThrew(e) => Outcome(d.table, Caught(e), Some(mail))
  }

  /** `GET` on the endpoint. */
  function Get(): (r: Response)
    ensures r.status == 405 && r.payload == Problem(NotAllowedText)
  {
    Response(405, Problem(NotAllowedText))
  }

  /** A refused rate check decides the response before the body, the
      environment or the transport is looked at. */
  lemma RateCheckComesFirst(t: RateLimit.Table, now: int, h: Headers,
                            b1: Body, e1: Env, tr1: Transport,
                            b2: Body, e2: Env, tr2: Transport)
    requires !RateLimit.CheckRateLimit(t, ClientAddress(h), now).allowed
    ensures Post(t, now, h, b1, e1, tr1) == Post(t, now, h, b2, e2, tr2)
    ensures Post(t, now, h, b1, e1, tr1).response == Response(429, Problem(TooManyText))
  {
  }

  /** Which 400 message a form gets: missing fields before an over-long name,
      an over-long name before over-long content, over-long content before a
      malformed e-mail; and none of them depends on the environment or the
      transport. */
  lemma ValidationPrecedence(t: RateLimit.Table, now: int, h: Headers, f: Form, env: Env,
                             transport: Transport)
    requires RateLimit.CheckRateLimit(t, ClientAddress(h), now).allowed
    ensures !Given(f.name) || !Given(f.content) ==>
              Post(t, now, h, Parsed(f), env, transport).response == Response(400, Problem(RequiredText))
    ensures Given(f.name) && Given(f.content) && |f.name.text| > NameLimit ==>
              Post(t, now, h, Parsed(f), env, transport).response == Response(400, Problem(NameTooLongText))
    ensures Given(f.name) && Given(f.content) && |f.name.text| <= NameLimit
            && |f.content.text| > ContentLimit ==>
              Post(t, now, h, Parsed(f), env, transport).response == Response(400, Problem(ContentTooLongText))
    ensures Given(f.name) && Given(f.content) && |f.name.text| <= NameLimit
            && |f.content.text| <= ContentLimit && Given(f.email)
            && !EmailPattern.Matches(f.email.text) ==>
              Post(t, now, h, Parsed(f), env, transport).response == Response(400, Problem(BadEmailText))
    ensures ValidForm(f) && !Configured(env) ==>
              Post(t, now, h, Parsed(f), env, transport).response == Response(503, Problem(NotConfiguredText))
  {
  }

  /** A string that still contains a non-space character keeps one after
      trimming. */
  lemma TrimKeepsText(s: string, k: int)
    requires 0 <= k < |s| && !IsWhitespace(s[k])
    ensures Trim(s) != []
  {
    assert forall q :: 0 <= q < TrimFrom(s) ==> IsWhitespace(s[..TrimFrom(s)][q]);
    forall q | TrimTo(s) <= q < |s|
      ensures IsWhitespace(s[q])
    {
      assert s[q] == s[TrimTo(s)..][q - TrimTo(s)];
    }
    assert TrimFrom(s) <= k < TrimTo(s);
  }

  /** An address that matches the pattern always yields a reply-to header:
      its '@' survives sanitising. */
  lemma ValidEmailGetsReplyTo(f: Form, env: Env)
    requires ValidForm(f) && Given(f.email)
    ensures Compose(f, env).replyTo.Some?
  {
    var s := f.email.text;
    EmailPattern.MatchesIffShaped(s);
    var i :| 0 < i < |s| && EmailPattern.OnlyAt(s, i) && EmailPattern.DotInside(s, i);
    assert s[i] in multiset(s);
    StripBracketsKeepsOthers(s, '@');
    var t := StripBrackets(s);
    assert '@' in multiset(t);
    var k :| 0 <= k < |t| && t[k] == '@';
    TrimKeepsText(t, k);
  }

  /** The pattern is checked on the raw address but the reply-to header
      carries the sanitised one, which need not match: `"<@<.<"` passes the
      check and is sent on as `"@."`. */
  lemma SanitizedReplyToMayNotMatch()
    ensures EmailPattern.Matches("<@<.<")
    ensures Sanitize("<@<.<") == "@."
    ensures !EmailPattern.Matches("@.")
  {
    RawAddressMatches();
    SanitizedAddress();
  }

  lemma RawAddressMatches()
    ensures EmailPattern.Matches("<@<.<")
  {
    var s := "<@<.<";
    assert s[..1] == "<" && s[1 + 1..3] == "<" && s[3 + 1..] == "<";
    assert && 0 < 1 && 1 + 1 < 3 && 3 + 1 < |s| && s[1] == '@' && s[3] == '.'
           && EmailPattern.Plain(s[..1]) && EmailPattern.Plain(s[1 + 1..3])
           && EmailPattern.Plain(s[3 + 1..]);
  }

  lemma SanitizedAddress()
    ensures Sanitize("<@<.<") == "@."
  {
    var s := "<@<.<";
    var a, b, c := "<", "@", "<.<";
    assert s == a + (b + c);
    StripBracketsAppend(a, b + c);
    StripBracketsAppend(b, c);
    assert StripBrackets(a) == [] by { assert a[1..] == []; }
    assert StripBrackets(b) == b by { assert b[1..] == []; }
    var c1, c2 := "<", ".<";
    assert c == c1 + c2;
    StripBracketsAppend(c1, c2);
    assert StripBrackets(c1) == [] by { assert c1[1..] == []; }
    assert StripBrackets(c2) == "." by {
      assert c2[1..] == ">"[..0] + "<";
      assert StripBrackets(c2[1..]) == [] by { assert c2[1..][1..] == []; }
    }
    assert StripBrackets(s) == "@.";
    var r := "@.";
    assert r[0] == '@' && r[1] == '.';
    assert !IsWhitespace('@') && !IsWhitespace('.');
    TrimIdentity(r);
  }
}
