/** The booking page's state machine: choose a date and a time, then a
    service, then submit the details. The page's state variables are the
    fields of `Wizard`, and each handler is a method. A click on a button
    that the page shows disabled is a call that changes nothing. The clock
    ("today") and the outcome of `fetch` are parameters. */
module BookingWizard {
  import opened JsValues
  import opened EmailFormat
  import opened Availability
  import opened CalendarGrid
  import AppointmentRoute

  datatype Step = DateTime | Details | Payment

  datatype SubmitStatus = Idle | Success | Error

  /** What `await fetch('/api/appointment', ...)` gives: a response whose
      `ok` holds, one whose `ok` does not, or a thrown error. */
  datatype FetchOutcome = Ok | NotOk | NetworkFailure

  /** The place of a step in the progress bar. */
  function Position(step: Step): (r: nat)
    ensures r < 3
  {
    match step
    case DateTime => 0
    case Details => 1
    case Payment => 2
  }

  /** `handleNextStep`: on to the details once a date and a time are chosen,
      on to payment once a service is chosen, otherwise stay. */
  function NextStep(step: Step, date: string, time: string, service: string): Step
  {
    if step == DateTime && date != "" && time != "" then Details
    else if step == Details && service != "" then Payment
    else step
  }

  /** `handlePreviousStep`. */
  function PreviousStep(step: Step): Step
  {
    match step
    case DateTime => DateTime
    case Details => DateTime
    case Payment => Details
  }

  /** The `disabled` expression of the Next button. */
  predicate NextDisabled(step: Step, date: string, time: string, service: string)
  {
    (step == DateTime && (date == "" || time == "")) || (step == Details && service == "")
  }

  /** Next leaves the step unchanged exactly when its button is disabled or
      the last step is reached; otherwise it moves one place forward. */
  lemma NextStepMoves(step: Step, date: string, time: string, service: string)
    ensures NextStep(step, date, time, service) == step <==> step == Payment || NextDisabled(step, date, time, service)
    ensures NextStep(step, date, time, service) != step ==>
      Position(NextStep(step, date, time, service)) == Position(step) + 1
  {
  }

  /** The guards of the two forward moves, in both directions. */
  lemma NextStepGuards(step: Step, date: string, time: string, service: string)
    ensures NextStep(step, date, time, service) == Details <==> (step == Details && service == "") || (step == DateTime && date != "" && time != "")
    ensures NextStep(step, date, time, service) == Payment <==> step == Payment || (step == Details && service != "")
  {
  }

  /** Previous moves one place back and does nothing on the first step. */
  lemma PreviousStepMoves(step: Step)
    ensures PreviousStep(step) == step <==> step == DateTime
    ensures step != DateTime ==> Position(PreviousStep(step)) + 1 == Position(step)
  {
  }

  /** Going back undoes a forward move. */
  lemma PreviousUndoesNext(step: Step, date: string, time: string, service: string)
    ensures NextStep(step, date, time, service) != step ==> PreviousStep(NextStep(step, date, time, service)) == step
  {
  }

  /** The months the month picker offers: June 2025 and the two months after. */
  const AvailableMonths: seq<(int, int)> := [(2025, 6), (2025, 7), (2025, 8)]

  /** `selectedDate ? mockAvailability[selectedDate] || [] : []`: the guard
      on the empty date changes nothing, since the table never lists it. */
  function SelectedDateSlots(date: string): (r: seq<string>)
    ensures r == SlotsFor(date)
  {
    if date != "" then SlotsFor(date) else NoSlotsWithoutDate(); []
  }

  /** The JSON body `handleSubmit` posts. `JSON.stringify` drops an undefined
      price; reading an absent key gives Undefined as well, so the body is
      the same for `Get`. */
  function SubmissionBody(name: string, email: string, phone: string, message: string,
                          date: string, time: string, service: string): (r: Body)
    ensures Get(r, "email") == Str(email) && Get(r, "price") == SelectedPrice(service)
    ensures Get(r, "date") == Str(date) && Get(r, "time") == Str(time) && Get(r, "service") == Str(service)
    ensures AppointmentRoute.Interpolable(r)
  {
    map["name" := Str(name), "email" := Str(email), "phone" := Str(phone), "date" := Str(date),
        "time" := Str(time), "service" := Str(service), "message" := Str(message),
        "price" := SelectedPrice(service)]
  }

  /** `response.ok`: a 2xx status. */
  function ResponseOutcome(response: Response): (r: FetchOutcome)
    ensures r == Ok <==> 200 <= response.status < 300
    ensures r != NetworkFailure
  {
    if 200 <= response.status < 300 then Ok else NotOk
  }

  /** A complete booking from the payment step passes the route's checks
      exactly when the address has the shape the route's regular expression
      demands. The browser's own check of an email input accepts "a@b",
      which the route rejects. */
  lemma SubmissionValidated(name: string, email: string, phone: string, message: string,
                            date: string, time: string, service: string)
    requires name != "" && email != "" && date != "" && time != "" && service in ServicePricing
    ensures AppointmentRoute.Validated(SubmissionBody(name, email, phone, message, date, time, service))
      <==> EmailShape(email)
  {
    SelectedPriceTruthy(service);
  }

  /** The page sees `ok` for its submission exactly when the address is
      well formed and both of the route's mails went out. */
  lemma SubmissionOutcome(name: string, email: string, phone: string, message: string,
                          date: string, time: string, service: string,
                          formattedDate: string, formattedTime: string, notice: SendOutcome, confirmation: SendOutcome)
    requires name != "" && email != "" && date != "" && time != "" && service in ServicePricing
    ensures var body := SubmissionBody(name, email, phone, message, date, time, service);
      var r := AppointmentRoute.Handle(Json(body), formattedDate, formattedTime, notice, confirmation);
      ResponseOutcome(r.response) == Ok <==> EmailShape(email) && notice == Delivered && confirmation == Delivered
  {
    var body := SubmissionBody(name, email, phone, message, date, time, service);
    SubmissionValidated(name, email, phone, message, date, time, service);
    AppointmentRoute.SuccessIff(Json(body), formattedDate, formattedTime, notice, confirmation);
  }

  /** The choices the page allows: a chosen date is listed in the table, a
      chosen time is free on the chosen date, and a chosen service has a
      price. The empty string stands for "nothing chosen". */
  predicate Choices(date: string, time: string, service: string)
  {
    (date != "" ==> date in MockAvailability)
    && (time != "" ==> time in SlotsFor(date))
    && (service != "" ==> service in ServicePricing)
  }

  class Wizard {
    var step: Step
    var selectedDate: string
    var selectedTime: string
    var selectedService: string
    var submitStatus: SubmitStatus
    var isSubmitting: bool
    /** `currentMonth`, as a year and a month from 1 to 12. */
    var currentYear: int
    var currentMonth: int

    /** What the handlers keep: the choices are allowed ones, and each
        later step has the choices of the earlier ones. */
    predicate Valid()
      reads this
    {
      1 <= currentMonth <= 12
      && Choices(selectedDate, selectedTime, selectedService)
      && (step != DateTime ==> selectedDate != "" && selectedTime != "")
      && (step == Payment ==> selectedService != "")
    }

    constructor()
      ensures Valid()
      ensures step == DateTime && selectedDate == "" && selectedTime == "" && selectedService == ""
      ensures submitStatus == Idle && !isSubmitting && currentYear == 2025 && currentMonth == 6
    {
      step := DateTime;
      selectedDate := "";
      selectedTime := "";
      selectedService := "";
      submitStatus := Idle;
      isSubmitting := false;
      currentYear := 2025;
      currentMonth := 6;
    }

    /** `handleDateSelect`: a new date clears the time. */
    method HandleDateSelect(date: string)
      requires Valid() && step == DateTime && date in MockAvailability
      modifies this
      ensures Valid()
      ensures selectedDate == date && selectedTime == ""
      ensures step == old(step) && selectedService == old(selectedService)
      ensures submitStatus == old(submitStatus) && isSubmitting == old(isSubmitting)
      ensures currentYear == old(currentYear) && currentMonth == old(currentMonth)
    {
      selectedDate := date;
      selectedTime := "";
    }

    /** A click on cell k of the grid: `isClickable && handleDateSelect(date)`. */
    method ClickDate(today: int, k: nat)
      requires Valid() && step == DateTime && k < GridSize
      modifies this
      ensures Valid()
      ensures var cell := Grid(currentYear, currentMonth, today)[k];
        if IsClickable(cell) then selectedDate == cell.date && selectedTime == ""
        else selectedDate == old(selectedDate) && selectedTime == old(selectedTime)
      ensures step == old(step) && selectedService == old(selectedService)
      ensures submitStatus == old(submitStatus) && isSubmitting == old(isSubmitting)
      ensures currentYear == old(currentYear) && currentMonth == old(currentMonth)
    {
      var dates := BuildCalendar(currentYear, currentMonth, today);
      var cell := dates[k];
      if IsClickable(cell) {
        GridSlots(currentYear, currentMonth, today, k);
        SlotsForNonEmpty(cell.date);
        HandleDateSelect(cell.date);
      }
    }

    /** `handleTimeSelect`. */
    method HandleTimeSelect(time: string)
      requires Valid() && step == DateTime && time in SlotsFor(selectedDate)
      modifies this
      ensures Valid()
      ensures selectedTime == time
      ensures step == old(step) && selectedDate == old(selectedDate) && selectedService == old(selectedService)
      ensures submitStatus == old(submitStatus) && isSubmitting == old(isSubmitting)
      ensures currentYear == old(currentYear) && currentMonth == old(currentMonth)
    {
      selectedTime := time;
    }

    /** A click on the button of one of the offered half-hours, shown once a
        date is chosen: `isAvailable && handleTimeSelect(time)`. */
    method ClickTime(time: string)
      requires Valid() && step == DateTime && selectedDate != "" && time in TimeSlots
      modifies this
      ensures Valid()
      ensures selectedTime == if time in SlotsFor(selectedDate) then time else old(selectedTime)
      ensures step == old(step) && selectedDate == old(selectedDate) && selectedService == old(selectedService)
      ensures submitStatus == old(submitStatus) && isSubmitting == old(isSubmitting)
      ensures currentYear == old(currentYear) && currentMonth == old(currentMonth)
    {
      var isAvailable := time in SelectedDateSlots(selectedDate);
      if isAvailable {
        HandleTimeSelect(time);
      }
    }

    /** `handleServiceSelect`, called from the buttons of the listed services. */
    method HandleServiceSelect(service: string)
      requires Valid() && step == Details && service in ServicePricing
      modifies this
      ensures Valid()
      ensures selectedService == service
      ensures step == old(step) && selectedDate == old(selectedDate) && selectedTime == old(selectedTime)
      ensures submitStatus == old(submitStatus) && isSubmitting == old(isSubmitting)
      ensures currentYear == old(currentYear) && currentMonth == old(currentMonth)
    {
      selectedService := service;
    }

    method HandleNextStep()
      requires Valid()
      modifies this
      ensures Valid()
      ensures step == NextStep(old(step), selectedDate, selectedTime, selectedService)
      ensures selectedDate == old(selectedDate) && selectedTime == old(selectedTime) && selectedService == old(selectedService)
      ensures submitStatus == old(submitStatus) && isSubmitting == old(isSubmitting)
      ensures currentYear == old(currentYear) && currentMonth == old(currentMonth)
    {
      if step == DateTime && selectedDate != "" && selectedTime != "" {
        step := Details;
      } else if step == Details && selectedService != "" {
        step := Payment;
      }
    }

    method HandlePreviousStep()
      requires Valid()
      modifies this
      ensures Valid()
      ensures step == PreviousStep(old(step))
      ensures selectedDate == old(selectedDate) && selectedTime == old(selectedTime) && selectedService == old(selectedService)
      ensures submitStatus == old(submitStatus) && isSubmitting == old(isSubmitting)
      ensures currentYear == old(currentYear) && currentMonth == old(currentMonth)
    {
      if step == Details {
        step := DateTime;
      } else if step == Payment {
        step := Details;
      }
    }

    /** The month picker's `setCurrentMonth`; the selections stay. */
    method SelectMonth(k: nat)
      requires Valid() && k < |AvailableMonths|
      modifies this
      ensures Valid()
      ensures (currentYear, currentMonth) == AvailableMonths[k]
      ensures step == old(step) && selectedDate == old(selectedDate) && selectedTime == old(selectedTime)
      ensures selectedService == old(selectedService)
      ensures submitStatus == old(submitStatus) && isSubmitting == old(isSubmitting)
    {
      currentYear := AvailableMonths[k].0;
      currentMonth := AvailableMonths[k].1;
    }

    /** `handleSubmit` up to the `await fetch`: the form is shown on the
        payment step, its submit button is disabled while a submission runs,
        and the browser insists on a name and an email. Returns the body
        that is posted. */
    method BeginSubmit(name: string, email: string, phone: string, message: string) returns (data: Body)
      requires Valid() && step == Payment && !isSubmitting && name != "" && email != ""
      modifies this
      ensures Valid()
      ensures isSubmitting && submitStatus == Idle
      ensures data == SubmissionBody(name, email, phone, message, selectedDate, selectedTime, selectedService)
      ensures step == old(step) && selectedDate == old(selectedDate) && selectedTime == old(selectedTime)
      ensures selectedService == old(selectedService)
      ensures currentYear == old(currentYear) && currentMonth == old(currentMonth)
    {
      hide Choices, SubmissionBody;
      isSubmitting := true;
      submitStatus := Idle;
      data := SubmissionBody(name, email, phone, message, selectedDate, selectedTime, selectedService);
    }

    /** `handleSubmit` after the `await`: success or error, and in every
        case `isSubmitting` is false again. Returns whether the delayed
        reset was scheduled. */
    method FinishSubmit(outcome: FetchOutcome) returns (resetScheduled: bool)
      requires Valid() && isSubmitting
      modifies this
      ensures Valid()
      ensures submitStatus == (if outcome == Ok then Success else Error) && !isSubmitting
      ensures resetScheduled <==> outcome == Ok
      ensures step == old(step) && selectedDate == old(selectedDate) && selectedTime == old(selectedTime)
      ensures selectedService == old(selectedService)
      ensures currentYear == old(currentYear) && currentMonth == old(currentMonth)
    {
      resetScheduled := false;
      if outcome == Ok {
        submitStatus := Success;
        resetScheduled := true;
      } else {
        submitStatus := Error;
      }
      isSubmitting := false;
    }

    /** The callback of `setTimeout` after a success: back to the first step
        with nothing chosen. The status stays as it is. */
    method ResetAfterSuccess()
      requires Valid()
      modifies this
      ensures Valid()
      ensures step == DateTime && selectedDate == "" && selectedTime == "" && selectedService == ""
      ensures submitStatus == old(submitStatus) && isSubmitting == old(isSubmitting)
      ensures currentYear == old(currentYear) && currentMonth == old(currentMonth)
    {
      step := DateTime;
      selectedDate := "";
      selectedTime := "";
      selectedService := "";
    }
  }

  /** Whatever the handlers did, a chosen time is one of the half-hours on
      offer and its date is listed in the table. */
  lemma ChosenTimeIsOffered(w: Wizard)
    requires w.Valid() && w.selectedTime != ""
    ensures w.selectedTime in TimeSlots && w.selectedDate in MockAvailability
  {
    SlotsAreTimeSlots(w.selectedDate, w.selectedTime);
  }

  /** On the payment step the booking carries everything the route needs:
      a date, a time and a positive price. */
  lemma PaymentStepComplete(w: Wizard)
    requires w.Valid() && w.step == Payment
    ensures w.selectedDate != "" && w.selectedTime != "" && Truthy(SelectedPrice(w.selectedService))
  {
    SelectedPriceTruthy(w.selectedService);
  }

  /** The first step of a whole booking: 2025-06-02, then its 10:00 slot. */
  method ExampleDateTime() returns (w: Wizard)
    ensures fresh(w) && w.Valid() && w.step == DateTime
    ensures w.selectedDate == "2025-06-02" && w.selectedTime == "10:00" && w.selectedService == ""
    ensures w.submitStatus == Idle && !w.isSubmitting
  {
    hide Choices, SlotsFor;
    FirstListedDate();
    w := new Wizard();
    w.HandleDateSelect("2025-06-02");
    w.HandleTimeSelect("10:00");
  }

  /** The choices of a whole booking: that date and time, then the
      software-development session, reaching the payment step. */
  method ExampleSelection() returns (w: Wizard)
    ensures fresh(w) && w.Valid() && w.step == Payment
    ensures w.selectedDate == "2025-06-02" && w.selectedTime == "10:00" && w.selectedService == "software-development"
    ensures w.submitStatus == Idle && !w.isSubmitting
  {
    hide Choices, SlotsFor;
    w := ExampleDateTime();
    w.HandleNextStep();
    w.HandleServiceSelect("software-development");
    w.HandleNextStep();
  }

  /** A whole booking: those choices, submitted by Alice with a well-formed
      address for 150 euro. The posted body passes the route's checks, both
      mails going out let the route answer 200, the page sees `ok` and
      schedules the reset, and after the delayed reset the wizard is back on its first step with nothing chosen
      and the success status still shown. */
  method ExampleBooking(formattedDate: string, formattedTime: string) returns (w: Wizard, data: Body)
    ensures w.Valid() && w.step == DateTime && w.submitStatus == Success && !w.isSubmitting
    ensures w.selectedDate == "" && w.selectedTime == "" && w.selectedService == ""
    ensures Get(data, "date") == Str("2025-06-02") && Get(data, "time") == Str("10:00")
      && Get(data, "price") == Number(150)
    ensures AppointmentRoute.Handle(Json(data), formattedDate, formattedTime, Delivered, Delivered).response.status == 200
  {
    hide Choices, SlotsFor, SubmissionBody, AppointmentRoute.Handle, AppointmentRoute.Validated, EmailShape;
    w := ExampleSelection();
    data := w.BeginSubmit("Alice", "a@b.com", "", "");
    assert Get(data, "price") == Number(150) by {
      assert ServicePricing["software-development"] == 150;
    }
    EmailShapeAcceptsExample();
    SubmissionValidated("Alice", "a@b.com", "", "", "2025-06-02", "10:00", "software-development");
    AppointmentRoute.SuccessIff(Json(data), formattedDate, formattedTime, Delivered, Delivered);
    var outcome := ResponseOutcome(AppointmentRoute.Handle(Json(data), formattedDate, formattedTime, Delivered, Delivered).response);
    var resetScheduled := w.FinishSubmit(outcome);
    assert resetScheduled;
    w.ResetAfterSuccess();
  }
}
