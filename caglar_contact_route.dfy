/** `POST /api/caglar-contact`: forwards a contact message over Gmail SMTP
    to a fixed address. It checks only that name, email and message are
    present; the address is not checked for its format. The sender account
    and the outcome of `sendMail` are inputs. */
module CaglarContactRoute {
  import opened Text
  import opened JsValues

  const Recipient := "caglar.bekiroglu@hotmail.com"
  const LineBreak := "<br>"

  const MissingFields := "All fields are required"
  const SendFailed := "Failed to send email"
  const Sent := "Email sent successfully"

  predicate HasRequiredFields(body: Body)
  {
    Truthy(Get(body, "name")) && Truthy(Get(body, "email")) && Truthy(Get(body, "message"))
  }

  /** String() succeeds on name and email, which the options interpolate. */
  predicate Interpolable(body: Body)
  {
    !ToStringThrows(Get(body, "name")) && !ToStringThrows(Get(body, "email"))
  }

  /** `mailOptions`; `text` is the message as a string, and `gmailUser` is
      `process.env.GMAIL_USER` (Undefined when unset). */
  function MailOptions(body: Body, text: string, gmailUser: JsValue): (m: Mail)
    requires Interpolable(body) && EnvValue(gmailUser)
    ensures m.to == [Recipient]
  {
    Mail(
      "\"Contact Form\" <" + ToJsString(gmailUser) + ">",
      [Recipient],
      Get(body, "email"),
      "New Contact from " + ToJsString(Get(body, "name")),
      [("From", ToJsString(Get(body, "name"))), ("Email", ToJsString(Get(body, "email"))),
       ("Message", ReplaceNewlines(text, LineBreak)), ("Reply to", ToJsString(Get(body, "name")))])
  }

  /** The handler. A name or email whose String() throws, or a message that
      is not a string (`message.replace` is then not a function), throws
      while the options are built, before anything is sent. */
  function Handle(request: Request, gmailUser: JsValue, send: SendOutcome): (r: Handled)
    requires EnvValue(gmailUser)
    ensures |r.mails| <= 1
  {
    match request
    case Malformed => Handled(ErrorResponse(500, SendFailed), [])
    case Json(body) =>
      if !HasRequiredFields(body) then Handled(ErrorResponse(400, MissingFields), [])
      else if !Interpolable(body) || !Get(body, "message").Str? then Handled(ErrorResponse(500, SendFailed), [])
      else
        var mail := MailOptions(body, Get(body, "message").s, gmailUser);
        if send.Threw? then Handled(ErrorResponse(500, SendFailed), [mail])
        else Handled(Response(200, map["message" := Str(Sent)]), [mail])
  }

  /** The only 400 answer is the missing-field one, and it is given exactly
      when a field is falsy. */
  lemma RejectedIff(request: Request, gmailUser: JsValue, send: SendOutcome)
    requires EnvValue(gmailUser)
    ensures var r := Handle(request, gmailUser, send).response;
      (r.status == 400 <==> request.Json? && !HasRequiredFields(request.body))
      && (r.status == 400 ==> r == ErrorResponse(400, MissingFields))
  {
  }

  /** Success exactly when the three fields are present, name and email
      convert to strings, the message is a string and the mail went out; any
      address that is present is accepted, whatever its form. */
  lemma SuccessIff(request: Request, gmailUser: JsValue, send: SendOutcome)
    requires EnvValue(gmailUser)
    ensures var r := Handle(request, gmailUser, send).response;
      r.status == 200
      <==> request.Json? && HasRequiredFields(request.body) && Interpolable(request.body)
           && Get(request.body, "message").Str? && send == Delivered
    ensures var r := Handle(request, gmailUser, send).response;
      r.status == 200 ==> r.payload == map["message" := Str(Sent)]
  {
  }

  /** Every answer is 200, 400 or the 500 "Failed to send email". */
  lemma ServerErrorIff(request: Request, gmailUser: JsValue, send: SendOutcome)
    requires EnvValue(gmailUser)
    ensures var r := Handle(request, gmailUser, send).response;
      (r.status == 500 <==> r == ErrorResponse(500, SendFailed))
      && (r.status == 200 || r.status == 400 || r.status == 500)
  {
  }

  /** The mail is handed over exactly when the fields are present, name and
      email convert to strings and the message is a string; it goes to the
      fixed recipient, replies go to the submitted address, and the subject
      names the sender. */
  lemma MailSent(request: Request, gmailUser: JsValue, send: SendOutcome)
    requires EnvValue(gmailUser)
    ensures var r := Handle(request, gmailUser, send);
      |r.mails| == 1
      <==> request.Json? && HasRequiredFields(request.body) && Interpolable(request.body)
           && Get(request.body, "message").Str?
    ensures var r := Handle(request, gmailUser, send);
      |r.mails| == 1 ==>
        var m, body := r.mails[0], request.body;
        m.to == [Recipient] && m.replyTo == Get(body, "email")
        && m.subject == "New Contact from " + ToJsString(Get(body, "name"))
        && m.fields[2] == ("Message", ReplaceNewlines(Get(body, "message").s, LineBreak))
  {
  }

  /** The address is forwarded without any format check: "not-an-address"
      succeeds. */
  lemma NoEmailFormatCheck(name: string, text: string, gmailUser: JsValue)
    requires name != "" && text != "" && EnvValue(gmailUser)
    ensures Handle(Json(map["name" := Str(name), "email" := Str("not-an-address"), "message" := Str(text)]),
                   gmailUser, Delivered).response.status == 200
  {
    var body := map["name" := Str(name), "email" := Str("not-an-address"), "message" := Str(text)];
    assert Get(body, "message") == Str(text);
    assert Get(body, "name") == Str(name) && Get(body, "email") == Str("not-an-address");
  }

  /** The message section holds no newline. */
  lemma MessageHasNoNewline(body: Body, text: string, gmailUser: JsValue)
    requires Interpolable(body) && EnvValue(gmailUser)
    ensures '\n' !in MailOptions(body, text, gmailUser).fields[2].1
  {
    ReplaceNewlinesRemovesAll(text, LineBreak);
  }
}
