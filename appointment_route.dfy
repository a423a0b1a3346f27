/** `POST /api/appointment`: checks the booking request, then sends a
    notification to the site owner and a confirmation to the client. The two
    sends and the locale formatting of the date and time are inputs. */
module AppointmentRoute {
  import opened Text
  import opened JsValues
  import opened EmailFormat

  const OwnerAddress := "canbek0104@gmail.com"
  const NoticeSender := "Portfolio Appointment <onboarding@resend.dev>"
  const ConfirmationSender := "Can Bekiroglu <onboarding@resend.dev>"
  const Euro := "\U{20AC}"

  const MissingFields := "Missing required fields"
  const InvalidEmail := "Invalid email format"
  const SendFailed := "Failed to send appointment request"
  const Sent := "Appointment request sent successfully"

  /** `!name || !email || !date || !time || !service || !price` is false. */
  predicate HasRequiredFields(body: Body)
  {
    Truthy(Get(body, "name")) && Truthy(Get(body, "email")) && Truthy(Get(body, "date"))
    && Truthy(Get(body, "time")) && Truthy(Get(body, "service")) && Truthy(Get(body, "price"))
  }

  /** The body passes both checks: every required field is present and
      `emailRegex.test(email)` accepts String(email), which must not throw. */
  predicate Validated(body: Body)
  {
    HasRequiredFields(body) && !ToStringThrows(Get(body, "email"))
    && EmailShape(ToJsString(Get(body, "email")))
  }

  /** String() succeeds on every value the route interpolates after the
      checks: date and time in `${date}T${time}`, then price, service, name
      and email in the notification, and phone and message in their optional
      sections. Those two sections are shown only for truthy values, and an
      object is always truthy, so a throwing phone or message throws there
      too. The confirmation interpolates nothing beyond these. */
  predicate Interpolable(body: Body)
  {
    !ToStringThrows(Get(body, "date")) && !ToStringThrows(Get(body, "time"))
    && !ToStringThrows(Get(body, "price")) && !ToStringThrows(Get(body, "service"))
    && !ToStringThrows(Get(body, "name")) && !ToStringThrows(Get(body, "email"))
    && !ToStringThrows(Get(body, "phone")) && !ToStringThrows(Get(body, "message"))
  }

  /** The notification to the owner. Phone and message have a section only
      when they are truthy. */
  function OwnerNotice(body: Body, formattedDate: string, formattedTime: string): (m: Mail)
    requires Interpolable(body)
    ensures m.to == [OwnerAddress] && m.replyTo == Undefined
    ensures |m.fields| >= 6
  {
    Mail(
      NoticeSender,
      [OwnerAddress],
      Undefined,
      "New " + Euro + ToJsString(Get(body, "price")) + " Appointment - " + ToJsString(Get(body, "service")),
      NoticeFields(body, formattedDate, formattedTime)
      + OptionalField("Phone", Get(body, "phone"))
      + OptionalField("Additional Message", Get(body, "message")))
  }

  /** The six sections every notification has. */
  function NoticeFields(body: Body, formattedDate: string, formattedTime: string): (r: seq<(string, string)>)
    requires Interpolable(body)
    ensures |r| == 6
  {
    [("Date", formattedDate), ("Time", formattedTime + " (CET)"),
     ("Service", ToJsString(Get(body, "service"))), ("Price", Euro + ToJsString(Get(body, "price"))),
     ("Name", ToJsString(Get(body, "name"))), ("Email", ToJsString(Get(body, "email")))]
  }

  /** `${value ? `...${value}...` : ""}`: a section shown only for a truthy value. */
  function OptionalField(title: string, value: JsValue): (r: seq<(string, string)>)
    requires !ToStringThrows(value)
    ensures |r| <= 1
  {
    if Truthy(value) then [(title, ToJsString(value))] else []
  }

  /** The confirmation to the client, sent to the submitted address. */
  function ClientConfirmation(body: Body, formattedDate: string, formattedTime: string): (m: Mail)
    requires Interpolable(body)
    ensures m.to == [ToJsString(Get(body, "email"))] && m.replyTo == Undefined
  {
    Mail(
      ConfirmationSender,
      [ToJsString(Get(body, "email"))],
      Undefined,
      "Appointment Request Received - " + formattedDate,
      [("Hi", ToJsString(Get(body, "name"))), ("Date", formattedDate), ("Time", formattedTime + " (CET)"),
       ("Service", ToJsString(Get(body, "service"))), ("Total Paid", Euro + ToJsString(Get(body, "price")))])
  }

  /** The handler. `formattedDate` and `formattedTime` stand for the
      toLocaleDateString and toLocaleTimeString texts of the requested
      slot; `notice` and `confirmation` are the outcomes of the two sends.
      A String() that throws, in the regular expression's test or in a
      template, lands in the catch, as a throwing send does. */
  function Handle(request: Request, formattedDate: string, formattedTime: string,
                  notice: SendOutcome, confirmation: SendOutcome): (r: Handled)
    ensures r.response.status == 200 || r.response.status == 400 || r.response.status == 500
    ensures |r.mails| <= 2
  {
    match request
    case Malformed => Handled(ErrorResponse(500, SendFailed), [])
    case Json(body) =>
      if !HasRequiredFields(body) then Handled(ErrorResponse(400, MissingFields), [])
      else if ToStringThrows(Get(body, "email")) then Handled(ErrorResponse(500, SendFailed), [])
      else if !EmailShape(ToJsString(Get(body, "email"))) then Handled(ErrorResponse(400, InvalidEmail), [])
      else if !Interpolable(body) then Handled(ErrorResponse(500, SendFailed), [])
      else
        var first := OwnerNotice(body, formattedDate, formattedTime);
        var second := ClientConfirmation(body, formattedDate, formattedTime);
        if notice.Threw? then Handled(ErrorResponse(500, SendFailed), [first])
        else if confirmation.Threw? then Handled(ErrorResponse(500, SendFailed), [first, second])
        else Handled(Response(200, map["message" := Str(Sent)]), [first, second])
  }

  // ---- validation ----

  /** A falsy required field, a price of 0 among them, is reported as
      missing, before the address is looked at, and nothing is sent. */
  lemma MissingFieldsReported(request: Request, fd: string, ft: string, n: SendOutcome, c: SendOutcome)
    ensures Handle(request, fd, ft, n, c).response == ErrorResponse(400, MissingFields)
      <==> request.Json? && !HasRequiredFields(request.body)
    ensures request.Json? && !HasRequiredFields(request.body) ==> Handle(request, fd, ft, n, c).mails == []
  {
  }

  lemma PriceZeroIsMissing(body: Body)
    requires Get(body, "price") == Number(0)
    ensures !HasRequiredFields(body)
  {
  }

  /** A missing address is a missing field, never a format error. */
  lemma MissingEmailIsNotFormatError(body: Body, fd: string, ft: string, n: SendOutcome, c: SendOutcome)
    requires !Truthy(Get(body, "email"))
    ensures Handle(Json(body), fd, ft, n, c).response == ErrorResponse(400, MissingFields)
  {
  }

  /** With every field present, the address is rejected exactly when
      String(email) succeeds and the regular expression does not match it;
      when String(email) throws, the test throws and the answer is 500. */
  lemma InvalidEmailReported(request: Request, fd: string, ft: string, n: SendOutcome, c: SendOutcome)
    ensures Handle(request, fd, ft, n, c).response == ErrorResponse(400, InvalidEmail)
      <==> request.Json? && HasRequiredFields(request.body) && !ToStringThrows(Get(request.body, "email"))
           && !MatchesEmailRegex(ToJsString(Get(request.body, "email")))
    ensures request.Json? && HasRequiredFields(request.body) && ToStringThrows(Get(request.body, "email")) ==>
      Handle(request, fd, ft, n, c) == Handled(ErrorResponse(500, SendFailed), [])
  {
    if request.Json? && !ToStringThrows(Get(request.body, "email")) {
      EmailShapeIsRegex(ToJsString(Get(request.body, "email")));
    }
  }

  /** A request passes validation exactly when every required field is
      truthy and the email is a string the regular expression matches: the
      String of a number, a boolean, null or an object holds no '@'. */
  lemma ValidatedIff(body: Body)
    ensures Validated(body)
      <==> HasRequiredFields(body) && Get(body, "email").Str? && MatchesEmailRegex(Get(body, "email").s)
  {
    var email := Get(body, "email");
    if !ToStringThrows(email) {
      EmailShapeIsRegex(ToJsString(email));
      if !email.Str? {
        NonStringHasNoAt(email);
        CountCharZero(ToJsString(email), '@');
      }
    }
  }

  // ---- sending ----

  /** Success exactly when the request is valid, every interpolated value
      converts to a string and both sends return; the owner's notification
      goes out first, then the client's confirmation. */
  lemma SuccessIff(request: Request, fd: string, ft: string, n: SendOutcome, c: SendOutcome)
    ensures var r := Handle(request, fd, ft, n, c);
      r.response.status == 200
      <==> request.Json? && Validated(request.body) && Interpolable(request.body)
           && n == Delivered && c == Delivered
    ensures var r := Handle(request, fd, ft, n, c);
      r.response.status == 200 ==>
        r.response.payload == map["message" := Str(Sent)]
        && r.mails == [OwnerNotice(request.body, fd, ft), ClientConfirmation(request.body, fd, ft)]
  {
  }

  /** A body that is not JSON, an address or interpolated value whose
      String() throws, or a send that throws ends in the 500 response; a
      throwing notification stops the confirmation from being sent, and a
      throwing String() stops both. */
  lemma ServerErrorIff(request: Request, fd: string, ft: string, n: SendOutcome, c: SendOutcome)
    ensures var r := Handle(request, fd, ft, n, c);
      r.response == ErrorResponse(500, SendFailed)
      <==> request.Malformed?
           || (HasRequiredFields(request.body) && ToStringThrows(Get(request.body, "email")))
           || (Validated(request.body) && (!Interpolable(request.body) || n.Threw? || c.Threw?))
    ensures request.Json? && Validated(request.body) && !Interpolable(request.body) ==>
      Handle(request, fd, ft, n, c).mails == []
    ensures request.Json? && Validated(request.body) && Interpolable(request.body) && n.Threw? ==>
      Handle(request, fd, ft, n, c).mails == [OwnerNotice(request.body, fd, ft)]
  {
  }

  /** The owner's notification is handed to the mailer for every valid
      request whose values convert to strings, and nothing reaches the
      mailer otherwise. */
  lemma NoticeAlwaysFirst(request: Request, fd: string, ft: string, n: SendOutcome, c: SendOutcome)
    ensures var r := Handle(request, fd, ft, n, c);
      (|r.mails| > 0 <==> request.Json? && Validated(request.body) && Interpolable(request.body))
      && (|r.mails| > 0 ==> r.mails[0] == OwnerNotice(request.body, fd, ft))
  {
  }

  /** An otherwise valid booking whose name is an object with a "toString"
      key makes the notification's template throw before anything is sent. */
  lemma ObjectNameIsServerError(fd: string, ft: string, n: SendOutcome, c: SendOutcome)
    ensures var body := map["name" := Object(map["toString" := Number(1)]), "email" := Str("a@b.com"),
                             "date" := Str("2025-06-16"), "time" := Str("10:00"),
                             "service" := Str("consultation"), "price" := Number(150)];
      Handle(Json(body), fd, ft, n, c) == Handled(ErrorResponse(500, SendFailed), [])
  {
    var body := map["name" := Object(map["toString" := Number(1)]), "email" := Str("a@b.com"),
                    "date" := Str("2025-06-16"), "time" := Str("10:00"),
                    "service" := Str("consultation"), "price" := Number(150)];
    assert HasRequiredFields(body) by {
      assert Get(body, "name") == Object(map["toString" := Number(1)]);
      assert Get(body, "email") == Str("a@b.com");
      assert Get(body, "date") == Str("2025-06-16");
      assert Get(body, "time") == Str("10:00");
      assert Get(body, "service") == Str("consultation");
      assert Get(body, "price") == Number(150);
    }
    assert Get(body, "email") == Str("a@b.com");
    assert ToStringThrows(Get(body, "name"));
    EmailShapeAcceptsExample();
    hide Get, HasRequiredFields, Interpolable, EmailShape, OwnerNotice, ClientConfirmation;
  }

  /** The notification has a Phone section exactly when the phone is
      truthy, and an Additional Message section exactly when the message is. */
  lemma OptionalSections(body: Body, fd: string, ft: string)
    requires Interpolable(body)
    ensures "Phone" in Labels(OwnerNotice(body, fd, ft).fields) <==> Truthy(Get(body, "phone"))
    ensures "Additional Message" in Labels(OwnerNotice(body, fd, ft).fields) <==> Truthy(Get(body, "message"))
  {
    var base := NoticeFields(body, fd, ft);
    var phone := OptionalField("Phone", Get(body, "phone"));
    var message := OptionalField("Additional Message", Get(body, "message"));
    LabelsAppend(base + phone, message);
    LabelsAppend(base, phone);
    assert Labels(base) == ["Date", "Time", "Service", "Price", "Name", "Email"];
    var t1, t2 := Truthy(Get(body, "phone")), Truthy(Get(body, "message"));
    assert Labels(phone) == if t1 then ["Phone"] else [];
    assert Labels(message) == if t2 then ["Additional Message"] else [];
    var fixed: seq<string> := ["Date", "Time", "Service", "Price", "Name", "Email"];
    assert "Phone" !in fixed && "Additional Message" !in fixed by {
      assert forall k :: 0 <= k < |fixed| ==> fixed[k][0] != 'A' && (fixed[k][0] == 'P' ==> fixed[k][1] == 'r');
    }
    hide NoticeFields, OptionalField, Truthy, ToJsString, Get, ToStringThrows;
    assert Labels(OwnerNotice(body, fd, ft).fields) == fixed + Labels(phone) + Labels(message);
  }

  lemma {:induction false} LabelsAppend(a: seq<(string, string)>, b: seq<(string, string)>)
    ensures Labels(a + b) == Labels(a) + Labels(b)
  {
    if a != [] {
      assert (a + b)[1..] == a[1..] + b;
      LabelsAppend(a[1..], b);
    } else {
      assert a + b == b;
    }
  }
}
