/** `POST /api/contact`: checks the contact form, then, when a mail API key
    is configured, forwards the message to the site owner. A failed
    notification is still answered with status 200. The API key and the
    send's outcome are inputs. */
module ContactRoute {
  import opened Text
  import opened JsValues
  import opened EmailFormat

  const OwnerAddress := "canbek0104@gmail.com"
  const Sender := "Portfolio Contact <onboarding@resend.dev>"
  const LineBreak := "<br/>"

  const MissingFields := "All fields are required"
  const InvalidEmail := "Invalid email format"
  const ServerError := "Internal server error"
  const Sent := "Message sent successfully"
  const NotificationFailed := "Message received but email notification failed"
  const Received := "Message received successfully"
  const NotConfigured := "Email notifications not configured"

  /** The TypeError V8 throws for `message.replace(...)` when the message is
      not a string. */
  const ReplaceTypeError := "message.replace is not a function"

  predicate HasRequiredFields(body: Body)
  {
    Truthy(Get(body, "name")) && Truthy(Get(body, "email"))
    && Truthy(Get(body, "subject")) && Truthy(Get(body, "message"))
  }

  /** Both checks pass: the fields are present and `emailRegex.test(email)`
      accepts String(email), which must not throw. */
  predicate Validated(body: Body)
  {
    HasRequiredFields(body) && !ToStringThrows(Get(body, "email"))
    && EmailShape(ToJsString(Get(body, "email")))
  }

  /** String() succeeds on the values the notification interpolates: the
      subject in the mail's subject, then name, email and subject in its body. */
  predicate Interpolable(body: Body)
  {
    !ToStringThrows(Get(body, "subject")) && !ToStringThrows(Get(body, "name"))
    && !ToStringThrows(Get(body, "email"))
  }

  /** `data: { name, email, subject }`, echoed in every 200 answer. */
  function Echo(body: Body): (r: JsValue)
    ensures r.Object? && r.fields.Keys == {"name", "email", "subject"}
  {
    Object(map["name" := Get(body, "name"), "email" := Get(body, "email"), "subject" := Get(body, "subject")])
  }

  /** The notification; `text` is the message as a string. */
  function Notification(body: Body, text: string): (m: Mail)
    requires Interpolable(body)
    ensures m.to == [OwnerAddress] && m.replyTo == Get(body, "email")
  {
    Mail(
      Sender,
      [OwnerAddress],
      Get(body, "email"),
      "[Portfolio] " + ToJsString(Get(body, "subject")),
      [("Name", ToJsString(Get(body, "name"))), ("Email", ToJsString(Get(body, "email"))),
       ("Subject", ToJsString(Get(body, "subject"))), ("Message", ReplaceNewlines(text, LineBreak))])
  }

  /** The answer after a notification was attempted: sent, or failed with
      the error's message. */
  function Notified(body: Body, error: SendOutcome): (r: Response)
    ensures r.status == 200 && Get(r.payload, "data") == Echo(body)
  {
    match error
    case Delivered =>
      Response(200, map["message" := Str(Sent), "data" := Echo(body), "emailSent" := Bool(true)])
    case Threw(e) =>
      Response(200, map["message" := Str(NotificationFailed), "data" := Echo(body),
                        "emailSent" := Bool(false), "emailError" := Str(e)])
  }

  /** The handler. `apiKey` is `process.env.RESEND_API_KEY` (Undefined when
      unset); `send` is the outcome of `resend.emails.send`. A String()
      that throws in the regular expression's test reaches the outer catch;
      one that throws while the notification is built reaches the inner
      catch, as a throwing send does. */
  function Handle(request: Request, apiKey: JsValue, send: SendOutcome): (r: Handled)
    ensures |r.mails| <= 1
  {
    match request
    case Malformed => Handled(ErrorResponse(500, ServerError), [])
    case Json(body) =>
      if !HasRequiredFields(body) then Handled(ErrorResponse(400, MissingFields), [])
      else if ToStringThrows(Get(body, "email")) then Handled(ErrorResponse(500, ServerError), [])
      else if !EmailShape(ToJsString(Get(body, "email"))) then Handled(ErrorResponse(400, InvalidEmail), [])
      else if Truthy(apiKey) then
        if !Interpolable(body) then Handled(Notified(body, Threw(ToPrimitiveError)), [])
        else if Get(body, "message").Str? then Handled(Notified(body, send), [Notification(body, Get(body, "message").s)])
        else Handled(Notified(body, Threw(ReplaceTypeError)), [])
      else
        Handled(Response(200, map["message" := Str(Received), "data" := Echo(body),
                                  "emailSent" := Bool(false), "note" := Str(NotConfigured)]), [])
  }

  /** The 400 answers: a missing field is checked first, then the address
      against the regular expression, provided String(email) does not throw. */
  lemma RejectedIff(request: Request, apiKey: JsValue, send: SendOutcome)
    ensures Handle(request, apiKey, send).response == ErrorResponse(400, MissingFields)
      <==> request.Json? && !HasRequiredFields(request.body)
    ensures Handle(request, apiKey, send).response == ErrorResponse(400, InvalidEmail)
      <==> request.Json? && HasRequiredFields(request.body) && !ToStringThrows(Get(request.body, "email"))
           && !MatchesEmailRegex(ToJsString(Get(request.body, "email")))
  {
    if request.Json? && !ToStringThrows(Get(request.body, "email")) {
      EmailShapeIsRegex(ToJsString(Get(request.body, "email")));
    }
  }

  /** Every valid form is answered with 200 and its echo, whether or not a
      notification went out; 500 comes from a body that is not JSON or from
      an address whose String() throws in the regular expression's test. */
  lemma AcceptedIff(request: Request, apiKey: JsValue, send: SendOutcome)
    ensures var r := Handle(request, apiKey, send).response;
      (r.status == 200 <==> request.Json? && Validated(request.body))
      && (r.status == 500 <==> request.Malformed?
                               || (HasRequiredFields(request.body) && ToStringThrows(Get(request.body, "email"))))
      && (r.status == 200 ==> Get(r.payload, "data") == Echo(request.body))
  {
  }

  /** `emailSent: true` exactly when a key is configured, subject and name
      convert to strings, the message is a string and the send returned. */
  lemma EmailSentIff(request: Request, apiKey: JsValue, send: SendOutcome)
    ensures var r := Handle(request, apiKey, send).response;
      Get(r.payload, "emailSent") == Bool(true)
      <==> request.Json? && Validated(request.body) && Truthy(apiKey) && Interpolable(request.body)
           && Get(request.body, "message").Str? && send == Delivered
  {
  }

  /** With a key, the failure note is given exactly when a subject or name
      whose String() throws, a message that is not a string, or the send
      ends the inner try. */
  lemma FailureReported(body: Body, apiKey: JsValue, send: SendOutcome)
    requires Validated(body) && Truthy(apiKey)
    ensures var r := Handle(Json(body), apiKey, send);
      Get(r.response.payload, "message") == Str(NotificationFailed)
      <==> !Interpolable(body) || !Get(body, "message").Str? || send.Threw?
  {
  }

  /** The failure's `emailError`: the TypeError of String() for a subject or
      name that cannot convert (both are interpolated before the message),
      then the TypeError of `replace` for a message that is not a string,
      then the send's own message. */
  lemma FailureMessage(body: Body, apiKey: JsValue, send: SendOutcome)
    requires Validated(body) && Truthy(apiKey)
    ensures var r := Handle(Json(body), apiKey, send);
      !Interpolable(body) ==> Get(r.response.payload, "emailError") == Str(ToPrimitiveError) && r.mails == []
    ensures var r := Handle(Json(body), apiKey, send);
      Interpolable(body) && !Get(body, "message").Str? ==>
        Get(r.response.payload, "emailError") == Str(ReplaceTypeError) && r.mails == []
    ensures var r := Handle(Json(body), apiKey, send);
      Interpolable(body) && Get(body, "message").Str? && send.Threw? ==>
        Get(r.response.payload, "emailError") == Str(send.message)
  {
  }

  /** Without a key nothing is sent and the answer says so. */
  lemma NoKeyNoMail(request: Request, apiKey: JsValue, send: SendOutcome)
    requires !Truthy(apiKey)
    ensures var r := Handle(request, apiKey, send);
      r.mails == []
      && (request.Json? && Validated(request.body) ==> Get(r.response.payload, "note") == Str(NotConfigured))
  {
  }

  /** A notification is handed to the mailer exactly when the form is
      valid, a key is configured, subject and name convert to strings and
      the message is a string; it goes to
      the owner, replies go to the sender, the subject carries the
      "[Portfolio] " prefix and the message has its newlines turned into
      line breaks. */
  lemma NotificationSent(request: Request, apiKey: JsValue, send: SendOutcome)
    ensures var r := Handle(request, apiKey, send);
      |r.mails| == 1
      <==> request.Json? && Validated(request.body) && Truthy(apiKey) && Interpolable(request.body)
           && Get(request.body, "message").Str?
    ensures var r := Handle(request, apiKey, send);
      |r.mails| == 1 ==>
        var m, body := r.mails[0], request.body;
        m.to == [OwnerAddress] && m.replyTo == Get(body, "email")
        && m.subject == "[Portfolio] " + ToJsString(Get(body, "subject"))
        && m.fields[3] == ("Message", ReplaceNewlines(Get(body, "message").s, LineBreak))
  {
  }

  /** The message section of a notification holds no newline, and a message
      without newlines is shown as written. */
  lemma MessageHasNoNewline(body: Body, text: string)
    requires Interpolable(body)
    ensures '\n' !in Notification(body, text).fields[3].1
    ensures '\n' !in text ==> Notification(body, text).fields[3].1 == text
  {
    ReplaceNewlinesRemovesAll(text, LineBreak);
    if '\n' !in text {
      ReplaceNewlinesKeepsOtherText(text, LineBreak);
    }
  }
}
