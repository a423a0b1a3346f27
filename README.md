# Portfolio site: booking page, form routes, translations, blog card and sitemap

This project is a Dafny model of the parts of Can Bekiroglu's portfolio site
(Next.js, TypeScript) that hold logic. It covers:

- **The appointment page** (`BookingWizard`, `CalendarGrid`, `Availability`).
  - The static availability table, the twelve half-hour slots and the three
    service prices.
  - The 42-cell month grid, built by a loop (`CalendarGrid.BuildCalendar`)
    and proved equal to a specification function `Grid`.
  - The clickability rule of a date cell.
  - The three-step wizard (`datetime → details → payment`) as a class whose
    methods are the page's handlers. Together they keep the invariant that a
    chosen time is free on the chosen date.
  - The submission flags, with the outcome of `fetch` as a parameter and the
    3-second reset as an explicit event.
  - The price shown for a service and the end-time label.
- **Dates** (`Calendar`). JavaScript `Date` values are modelled as day
  numbers counted from 1970-01-01, together with their civil dates. The
  conversion is proved to round-trip in both directions. "Next day",
  weekdays and the ISO date text are defined and their properties proved.
- **The three form endpoints** (`AppointmentRoute`, `ContactRoute`,
  `CaglarContactRoute`).
  - Each handler is a pure function. Given a request and the outcomes of the
    mail sends, it returns the HTTP response and the messages handed to the
    mailer.
  - JavaScript truthiness and `String(x)` are modelled in `JsValues`.
  - The email regular expression `^[^\s@]+@[^\s@]+\.[^\s@]+$` is modelled in
    `EmailFormat`. It is written both as a literal reading of the pattern and
    as a direct check, and the two are proved equivalent.
  - The newline replacement is modelled in `Text`.
- **The language context** (`Language`). It covers:
  - the `t` lookup with its fallback to the key;
  - the default language;
  - which stored codes are accepted on mount;
  - `setLanguage`, which persists the choice.
- **The blog card** (`BlogCard`): the first three tags, the "+k more" note
  and the link.
- **The sitemap** (`Sitemap`): four fixed pages, then one entry per post.

On the page only name and email carry the `required` attribute. Date, time,
service and price are checked by the route, which answers a missing field
with 400 (`AppointmentRoute.Handle`, `AppointmentRoute.MissingFieldsReported`).

`String(x)` throws a TypeError when x is a parsed JSON object with its own
"toString" key (`JsValues.ToStringThrows`). The routes call it implicitly in
`emailRegex.test(email)` and in every template, and the model sends that
throw to the catch the code reaches: the 500 answer in the appointment and
Gmail routes, and in the contact route the outer 500 for the address or the
inner "notification failed" answer for name and subject.

## Model

| member | source | states |
|---|---|---|
| Availability.SlotsFor | src/app/appointment/page.tsx:122 | a date not in the availability table has no slots (`mockAvailability[date] \|\| []`), and absence is not an error |
| Availability.TableEntries | src/app/appointment/page.tsx:13-71 | every entry of the 52-date table is a ten-character date with at least one slot, each slot being one of the twelve buttons |
| Availability.SlotsForNonEmpty | src/app/appointment/page.tsx:122 | a date has a free slot if and only if the table lists it |
| Availability.SlotsAreTimeSlots | src/app/appointment/page.tsx:73-76 | every free slot of every date is one of the half-hour buttons the page lays out |
| Availability.NoSlotsWithoutDate | src/app/appointment/page.tsx:147 | the empty date ("no date chosen") has no slots |
| Availability.JuneEntryKept | src/app/appointment/page.tsx:13-71 | the months of the table do not overlap, so a June date keeps its June entry |
| Availability.FirstListedDate | src/app/appointment/page.tsx:15 | 2025-06-02 is listed with the slots 10:00, 10:30, 11:30, 14:00, 14:30 and 15:00 |
| Availability.SelectedPrice | src/app/appointment/page.tsx:148 | the price is 0 with no service, the listed price for a listed service, and `undefined` for any other identifier |
| Availability.ClockLabel | src/app/appointment/page.tsx:73-76 | a time of day is written "HH:MM", five characters with the colon in the middle; the buttons are these labels (TimeSlotClock), and distinct times have distinct labels (ClockLabelInjective) |
| Availability.SelectedPriceTruthy | src/app/appointment/page.tsx:78-82 | the price is truthy exactly for the three listed services, and each of them costs 150, 100 or 120 |
| Availability.ClockLabelInjective | src/app/appointment/page.tsx:73-76 | different times of day have different "HH:MM" labels |
| Availability.TimeSlotClock | src/app/appointment/page.tsx:73-76 | button k is the time 10:00 plus 30·k minutes |
| Availability.TimeSlotIndex | src/app/appointment/page.tsx:412 | the buttons are distinct, so `indexOf` finds each one at its own position |
| Availability.EndTimeLabel | src/app/appointment/page.tsx:412 | the end label is "16:00" or one of the buttons |
| Availability.EndTimeNextSlot | src/app/appointment/page.tsx:412 | the end label of slot k is slot k+1, and "16:00" after the last slot |
| Availability.EndOfDayLabel | src/app/appointment/page.tsx:412 | "16:00" is half an hour after the last slot |
| Availability.EndTimeOfUnknownTime | src/app/appointment/page.tsx:412 | a time that is not offered has index -1, so its end label is "10:00" |
| Calendar.DaysRoundTrip | src/app/appointment/page.tsx:100-103 | the civil date of every day number is valid and converts back to the same day number |
| Calendar.CivilRoundTrip | src/app/appointment/page.tsx:100 | converting a valid civil date to a day number and back gives the same date, as `new Date(year, month, 1)` does |
| Calendar.NextDay | src/app/appointment/page.tsx:125 | adding one to a day number advances its civil date by one day: the next day of the month, the first of the next month, or New Year's Day |
| Calendar.NextDayDays | src/app/appointment/page.tsx:125 | the next civil day of a valid date is valid, and its day number is one more |
| Calendar.IsoDateInjective | src/app/appointment/page.tsx:110-112 | two days have the same `toISOString` date text if and only if they are the same day |
| Calendar.June2025Example | src/app/appointment/page.tsx:92 | June 1, 2025, the month the page opens on, is day 20240 and a Sunday |
| Calendar.DaysFromCivil | src/app/appointment/page.tsx:100 | the day number of a civil date, as `new Date(year, month, 1)` gives it; the inverse of CivilFromDays on valid dates (CivilRoundTrip) |
| Calendar.CivilFromDays | src/app/appointment/page.tsx:111-117 | the year, month and day that `getFullYear`, `getMonth` and `getDate` read from a day number; valid, and inverse to DaysFromCivil (DaysRoundTrip) |
| Calendar.Weekday | src/app/appointment/page.tsx:103 | `getDay()`: a weekday from 0 (Sunday) to 6, with 1970-01-01 a Thursday |
| Calendar.NextCivilDay | src/app/appointment/page.tsx:125 | the civil date after a given one, counted as `setDate(getDate() + 1)` does; agrees with adding one to the day number (NextDayDays) |
| Calendar.IsoDate | src/app/appointment/page.tsx:110 | `toISOString().split('T')[0]` as "YYYY-MM-DD"; distinct days give distinct texts (IsoDateInjective) |
| CalendarGrid.GridStart | src/app/appointment/page.tsx:102-103 | the grid starts on a Sunday no more than six days before the first of the month |
| CalendarGrid.Cell | src/app/appointment/page.tsx:110-123 | the cell pushed for the running date carries its ISO date, its day of the month and that date's table entry |
| CalendarGrid.DayInfoFor | src/app/appointment/page.tsx:105-126 | the cell for one day number and clock reading; the grid is made of these cells (GridCell) |
| CalendarGrid.Grid | src/app/appointment/page.tsx:108-109 | the grid has exactly 42 cells |
| CalendarGrid.BuildCalendar | src/app/appointment/page.tsx:95-129 | the loop over a running date, which pushes a cell and then calls `setDate(getDate() + 1)`, yields exactly the specification grid |
| CalendarGrid.GridCell | src/app/appointment/page.tsx:105-126 | the cell at position z - start is the cell for day z: 42 consecutive days from the first Sunday |
| CalendarGrid.GridFirstCell | src/app/appointment/page.tsx:100-103 | the first cell is the Sunday on or before the first of the month |
| CalendarGrid.GridNextCell | src/app/appointment/page.tsx:125 | each cell after the first shows the date one day after the cell before it |
| CalendarGrid.GridSlots | src/app/appointment/page.tsx:122 | every cell offers its date's table entry |
| CalendarGrid.GridCurrentMonth | src/app/appointment/page.tsx:111 | a cell is in the current month if and only if its year and month are the displayed ones, that is, if and only if it lies between the first and the last of the month |
| CalendarGrid.GridCoversMonth | src/app/appointment/page.tsx:108-126 | every day of the displayed month has a cell, which is in the current month and carries that day's number and date |
| CalendarGrid.GridToday | src/app/appointment/page.tsx:112-113 | a cell is today exactly for today's day number, and in the past exactly before it |
| CalendarGrid.GridColumns | src/app/appointment/page.tsx:121 | cell i falls on weekday i mod 7, and is a weekend cell exactly in the Sunday and Saturday columns |
| CalendarGrid.GridDatesDistinct | src/app/appointment/page.tsx:110 | no two cells carry the same date |
| CalendarGrid.GridClickable | src/app/appointment/page.tsx:306 | a cell is clickable if and only if it is in the displayed month, is today or later, and is listed in the table |
| CalendarGrid.IsClickable | src/app/appointment/page.tsx:306 | `isCurrentMonth && !isPastDate && availableSlots.length > 0`; GridClickable states it for a grid cell in terms of the displayed month, the clock and the table |
| CalendarGrid.DayInGridMonth | src/app/appointment/page.tsx:111 | within one grid, a cell whose month number matches the displayed month is in the displayed year too, so comparing months alone is enough |
| CalendarGrid.NextMonthStart | src/app/appointment/page.tsx:101 | the next month begins the day after this month's last day |
| BookingWizard.NextStepMoves | src/app/appointment/page.tsx:163-169 | Next leaves the step unchanged if and only if the step is payment or the button is disabled; otherwise it moves exactly one step forward |
| BookingWizard.NextStep | src/app/appointment/page.tsx:163-169 | the step Next moves to; NextStepMoves shows it moves one place forward unless the button is disabled or the step is payment |
| BookingWizard.NextDisabled | src/app/appointment/page.tsx:582-585 | the disabled expression of the Next button; NextStepMoves ties it to Next staying on its step |
| BookingWizard.PreviousStep | src/app/appointment/page.tsx:171-177 | the step Previous moves to; PreviousStepMoves and PreviousUndoesNext state its relation to Next |
| BookingWizard.NextStepGuards | src/app/appointment/page.tsx:164-167 | Next reaches details from datetime only with a date and a time, and payment from details only with a service |
| BookingWizard.PreviousStepMoves | src/app/appointment/page.tsx:171-177 | Previous moves exactly one step back, and does nothing at datetime |
| BookingWizard.PreviousUndoesNext | src/app/appointment/page.tsx:163-177 | Previous undoes every move that Next makes |
| BookingWizard.SelectedDateSlots | src/app/appointment/page.tsx:147 | the slots of the selected date are its table entry, including for the empty date |
| BookingWizard.SubmissionBody | src/app/appointment/page.tsx:185-194 | the posted body carries the typed email, the chosen date, time and service, and the page's price for that service |
| BookingWizard.ResponseOutcome | src/app/appointment/page.tsx:205 | `response.ok` holds exactly for a 2xx status |
| BookingWizard.SubmissionValidated | src/app/appointment/page.tsx:185-194 | a complete booking passes the route's checks if and only if the address has the shape the route's regular expression demands |
| BookingWizard.SubmissionOutcome | src/app/appointment/page.tsx:197-205 | the page sees `ok` if and only if the address is well formed and both of the route's mails went out |
| BookingWizard.Wizard.constructor | src/app/appointment/page.tsx:86-92 | the initial state: datetime step, nothing chosen, idle, not submitting, June 2025 |
| BookingWizard.Wizard.HandleDateSelect | src/app/appointment/page.tsx:150-153 | choosing a date sets it and clears the time; nothing else changes and the invariant holds |
| BookingWizard.Wizard.ClickDate | src/app/appointment/page.tsx:306-311 | a click on cell k selects that cell's date if and only if the cell is clickable, and otherwise changes nothing |
| BookingWizard.Wizard.HandleTimeSelect | src/app/appointment/page.tsx:155-157 | choosing a free time sets it; nothing else changes |
| BookingWizard.Wizard.ClickTime | src/app/appointment/page.tsx:374-380 | a click on a time button sets the time if and only if it is free on the chosen date |
| BookingWizard.Wizard.HandleServiceSelect | src/app/appointment/page.tsx:159-161 | choosing a service sets it; nothing else changes |
| BookingWizard.Wizard.HandleNextStep | src/app/appointment/page.tsx:163-169 | the new step is NextStep of the old one, the selections stay, and the invariant holds |
| BookingWizard.Wizard.HandlePreviousStep | src/app/appointment/page.tsx:171-177 | the new step is PreviousStep of the old one, and the selections stay |
| BookingWizard.Wizard.SelectMonth | src/app/appointment/page.tsx:284 | the month picker sets the displayed month to one of the three offered months, and the selections stay |
| BookingWizard.Wizard.BeginSubmit | src/app/appointment/page.tsx:179-194 | starting a submission sets `isSubmitting` and the idle status, keeps the step and the selections, and returns the body that is posted, built from the typed fields and the current selections (which SubmissionValidated relates to the route's checks) |
| BookingWizard.Wizard.FinishSubmit | src/app/appointment/page.tsx:205-222 | on `ok` the status is success and the reset is scheduled; otherwise the status is error; in both cases `isSubmitting` is false again and the step and the selections stay |
| BookingWizard.Wizard.ResetAfterSuccess | src/app/appointment/page.tsx:209-214 | the delayed reset returns to datetime and clears date, time and service, and leaves the status as it was |
| BookingWizard.ChosenTimeIsOffered | src/app/appointment/page.tsx:150-157 | in every state the handlers reach, a chosen time is one of the buttons and its date is in the table |
| BookingWizard.ExampleDateTime | src/app/appointment/page.tsx:150-157 | choosing 2025-06-02 and then its 10:00 slot from a fresh page leaves both chosen on the first step |
| BookingWizard.ExampleSelection | src/app/appointment/page.tsx:159-169 | after the date and time, Next, the software-development service and Next reach the payment step with all three choices |
| BookingWizard.ExampleBooking | src/app/appointment/page.tsx:179-223 | a whole booking: the posted body has the chosen date, time and price 150; the route answers 200 when both mails go out, so the page sees `ok` and schedules the reset; after the reset the wizard is back on its first step with nothing chosen and the success status shown |
| BookingWizard.PaymentStepComplete | src/app/appointment/page.tsx:163-169 | at payment, a date, a time and a truthy price are all present |
| EmailFormat.EmailShapeIsRegex | src/app/api/appointment/route.ts:20-21 | the direct check (no whitespace, exactly one '@', non-empty local part, a '.' inside the domain) accepts exactly what the regular expression matches |
| EmailFormat.MatchesEmailRegex | src/app/api/appointment/route.ts:20 | the anchored pattern read literally: three runs without whitespace or '@', separated by an '@' and a '.' |
| EmailFormat.EmailShape | src/app/api/appointment/route.ts:20 | the direct check the routes use for the pattern; EmailShapeIsRegex proves it equal to MatchesEmailRegex |
| EmailFormat.EmailShapeAcceptsExample | src/app/api/appointment/route.ts:20-21 | "a@b.com" is accepted |
| EmailFormat.EmailShapeRejectsExamples | src/app/api/appointment/route.ts:20-21 | "a@b", "@b.com", "a@.com" and "a@b." are rejected |
| EmailFormat.EmailShapeRejectsSpaceAndSecondAt | src/app/api/contact/route.ts:20-21 | an address with a space or a second '@' is rejected |
| JsValues.NonStringHasNoAt | src/app/api/appointment/route.ts:21 | the String of a value that is not a string holds no '@' |
| JsValues.Truthy | src/app/api/appointment/route.ts:12 | JavaScript truthiness: undefined, null, false, 0 and "" are falsy; every object is truthy |
| JsValues.ToStringThrows | src/app/api/appointment/route.ts:21 | String() throws exactly for a parsed object with an own "toString" key |
| JsValues.ToJsString | src/app/api/appointment/route.ts:21 | String(v) where it does not throw: the decimal text of a number, "true", "false", "null", "undefined", a string itself, "[object Object]" |
| JsValues.Get | src/app/api/appointment/route.ts:9 | destructuring `body.key`: an absent key reads as undefined |
| JsValues.EnvValue | src/app/api/caglar-contact/route.ts:28 | a `process.env` entry is a string or undefined |
| AppointmentRoute.OwnerNotice | src/app/api/appointment/route.ts:43-91 | the notice goes to the owner with no reply address, and has at least the six fixed sections |
| AppointmentRoute.NoticeFields | src/app/api/appointment/route.ts:56-66 | the six sections every notice has |
| AppointmentRoute.OptionalField | src/app/api/appointment/route.ts:68 | an optional section is present at most once |
| AppointmentRoute.ClientConfirmation | src/app/api/appointment/route.ts:92-95 | the confirmation goes to the submitted address |
| AppointmentRoute.Handle | src/app/api/appointment/route.ts:6-154 | every answer is 200, 400 or 500, and at most two mails are handed over; a `String()` that throws gives the 500 of the catch |
| AppointmentRoute.MissingFieldsReported | src/app/api/appointment/route.ts:12-17 | the answer is 400 "Missing required fields" if and only if a required field is falsy, and then nothing is sent |
| AppointmentRoute.PriceZeroIsMissing | src/app/api/appointment/route.ts:12 | a price of 0 counts as missing |
| AppointmentRoute.MissingEmailIsNotFormatError | src/app/api/appointment/route.ts:12-26 | a missing address gives the missing-field error, never the format error |
| AppointmentRoute.InvalidEmailReported | src/app/api/appointment/route.ts:20-26 | the answer is 400 "Invalid email format" if and only if every field is present, String(email) does not throw and the regular expression does not match it; when String(email) throws, the answer is the 500 of the catch and nothing is sent |
| AppointmentRoute.ValidatedIff | src/app/api/appointment/route.ts:9-26 | a request passes validation if and only if every required field is truthy and the email is a string the regular expression matches |
| AppointmentRoute.HasRequiredFields | src/app/api/appointment/route.ts:12 | `!name \|\| !email \|\| !date \|\| !time \|\| !service \|\| !price` is false |
| AppointmentRoute.Validated | src/app/api/appointment/route.ts:12-26 | both checks pass: the required fields are truthy and String(email) converts and matches; ValidatedIff shows this means a string address |
| AppointmentRoute.Interpolable | src/app/api/appointment/route.ts:29-91 | String() succeeds on date, time, price, service, name, email, phone and message; SuccessIff and ServerErrorIff split 200 from 500 on it |
| AppointmentRoute.SuccessIff | src/app/api/appointment/route.ts:28-146 | the answer is 200 if and only if the request is valid, every interpolated value converts to a string and both sends return; the notice is sent first, then the confirmation |
| AppointmentRoute.ServerErrorIff | src/app/api/appointment/route.ts:20-153 | the answer is 500 "Failed to send appointment request" if and only if the body is not JSON, String(email) throws in the test, or a valid request has a value whose String() throws in a template or a send that throws; a throwing String() stops both mails, and a failed notice stops the confirmation |
| AppointmentRoute.NoticeAlwaysFirst | src/app/api/appointment/route.ts:43-92 | something reaches the mailer if and only if the request is valid and every interpolated value converts to a string, and the owner's notice is always the first message |
| AppointmentRoute.ObjectNameIsServerError | src/app/api/appointment/route.ts:43-46 | a booking that passes both checks but whose name is `{"toString": 1}` is answered with the 500 of the catch, and no mail is sent |
| AppointmentRoute.OptionalSections | src/app/api/appointment/route.ts:68-73 | the notice has a Phone section if and only if the phone is truthy, and an Additional Message section if and only if the message is truthy |
| AppointmentRoute.LabelsAppend | src/app/api/appointment/route.ts:56-73 | the labels of joined section lists are the two lists of labels joined |
| ContactRoute.Echo | src/app/api/contact/route.ts:74-78 | the echoed `data` holds exactly name, email and subject |
| ContactRoute.HasRequiredFields | src/app/api/contact/route.ts:12 | `!name \|\| !email \|\| !subject \|\| !message` is false |
| ContactRoute.Validated | src/app/api/contact/route.ts:12-26 | both checks pass: the fields are truthy and String(email) converts and matches |
| ContactRoute.Interpolable | src/app/api/contact/route.ts:43-53 | String() succeeds on subject, name and email, which the notification interpolates; EmailSentIff and FailureMessage split on it |
| ContactRoute.Notification | src/app/api/contact/route.ts:40-67 | the notification goes to the owner, with replies going to the sender's address |
| ContactRoute.Notified | src/app/api/contact/route.ts:71-92 | after an attempted send the answer is 200 and echoes the form |
| ContactRoute.Handle | src/app/api/contact/route.ts:6-113 | at most one mail is handed over; a throwing String(email) gives the outer 500, a throwing subject or name the inner failure answer |
| ContactRoute.RejectedIff | src/app/api/contact/route.ts:12-26 | the answer is 400 "All fields are required" if and only if a field is falsy, and 400 "Invalid email format" if and only if every field is present, String(email) does not throw, and the regular expression does not match |
| ContactRoute.AcceptedIff | src/app/api/contact/route.ts:12-113 | the answer is 200 with the echo if and only if the form is valid, and 500 if and only if the body is not JSON or String(email) throws in the regular expression's test |
| ContactRoute.EmailSentIff | src/app/api/contact/route.ts:38-78 | `emailSent: true` holds if and only if the form is valid, a key is configured, subject and name convert to strings, the message is a string and the send returned |
| ContactRoute.FailureReported | src/app/api/contact/route.ts:39-92 | with a key, the failure message appears if and only if subject or name cannot convert to a string, the message is not a string, or the send threw |
| ContactRoute.FailureMessage | src/app/api/contact/route.ts:39-92 | the reported `emailError` is "Cannot convert object to primitive value" for a subject or name that cannot convert, then the TypeError of `replace` for a message that is not a string (in both cases nothing is sent), and otherwise the thrown error's message |
| ContactRoute.NoKeyNoMail | src/app/api/contact/route.ts:93-105 | without a key nothing is sent, and a valid form is answered with the "not configured" note |
| ContactRoute.NotificationSent | src/app/api/contact/route.ts:38-67 | a mail is handed over if and only if the form is valid, a key is set, subject and name convert to strings and the message is a string; its subject is "[Portfolio] " followed by the subject, and its message has the newlines replaced |
| ContactRoute.MessageHasNoNewline | src/app/api/contact/route.ts:58 | the message section holds no newline, and a message without newlines is shown as written |
| CaglarContactRoute.MailOptions | src/app/api/caglar-contact/route.ts:27-31 | the mail goes to the fixed recipient |
| CaglarContactRoute.HasRequiredFields | src/app/api/caglar-contact/route.ts:19 | `!name \|\| !email \|\| !message` is false; RejectedIff makes it the only 400 |
| CaglarContactRoute.Interpolable | src/app/api/caglar-contact/route.ts:28-107 | String() succeeds on name and email, which the options interpolate; SuccessIff and MailSent split on it |
| CaglarContactRoute.Handle | src/app/api/caglar-contact/route.ts:13-131 | at most one mail is handed over; a name or email whose String() throws, or a message that is not a string, gives the 500 of the catch before anything is sent |
| CaglarContactRoute.RejectedIff | src/app/api/caglar-contact/route.ts:19-24 | the answer is 400 if and only if name, email or message is falsy, and then the error is "All fields are required" |
| CaglarContactRoute.SuccessIff | src/app/api/caglar-contact/route.ts:27-123 | the answer is 200 "Email sent successfully" if and only if the fields are present, name and email convert to strings, the message is a string and the send returned |
| CaglarContactRoute.ServerErrorIff | src/app/api/caglar-contact/route.ts:124-130 | every answer is 200, 400 or the 500 "Failed to send email" |
| CaglarContactRoute.MailSent | src/app/api/caglar-contact/route.ts:27-115 | the mail is handed over if and only if the fields are present, name and email convert to strings and the message is a string; it goes to the fixed recipient, replies go to the submitted address, and the subject is "New Contact from " followed by the name |
| CaglarContactRoute.NoEmailFormatCheck | src/app/api/caglar-contact/route.ts:16-24 | an address with no format at all ("not-an-address") is still accepted |
| CaglarContactRoute.MessageHasNoNewline | src/app/api/caglar-contact/route.ts:104 | the rendered message holds no newline |
| Text.ReplaceNewlinesRemovesAll | src/app/api/caglar-contact/route.ts:104 | with a replacement that holds no newline, no newline is left |
| Text.ReplaceNewlinesKeepsOtherText | src/app/api/contact/route.ts:58 | text without newlines passes through unchanged |
| Text.ReplaceNewlinesAppend | src/app/api/contact/route.ts:58 | the replacement works piece by piece over joined text |
| Text.ReplaceNewlinesLength | src/app/api/contact/route.ts:58 | each newline grows the text by the replacement's length minus one |
| Text.ReplaceNewlines | src/app/api/contact/route.ts:58 | `replace(/\n/g, r)`: every newline becomes r; the lemmas above state that none is left, other text is kept, and it works piece by piece |
| Language.Code | src/contexts/language-context.tsx:5 | every language's code is one of the codes the provider accepts from storage |
| Language.FromCode | src/contexts/language-context.tsx:491-492 | an accepted code is read as the language whose code it is |
| Language.CodesAreExactlyTheLanguages | src/contexts/language-context.tsx:5 | the accepted codes are exactly the codes of en, de and tr |
| Language.FromCodeOfCode | src/contexts/language-context.tsx:491-492 | reading a language's code gives back that language |
| Language.Translate | src/contexts/language-context.tsx:501-503 | the lookup gives the table's text when it is present and non-empty, and the key itself otherwise |
| Language.TableFor | src/contexts/language-context.tsx:502 | `translations[language]`: each language has its own table |
| Language.TranslateResult | src/contexts/language-context.tsx:502 | the lookup gives the table's text or the key, and never the empty string for a non-empty key |
| Language.MissingKeyShownVerbatim | src/app/appointment/page.tsx:230 | "appointment.title", which no table has, is shown as itself in every language |
| Language.NavigationTranslated | src/contexts/language-context.tsx:15-484 | each language has its own table: "home" is "Home", "Startseite" or "Ana Sayfa" |
| Language.AdoptIff | src/contexts/language-context.tsx:489-494 | the language read on mount becomes the stored one if and only if that is an accepted code; otherwise it stays |
| Language.Adopt | src/contexts/language-context.tsx:489-494 | the mount effect's rule: a stored value is adopted when it is non-empty and among the accepted codes; AdoptIff states it both ways |
| Language.PersistedLanguageRestored | src/contexts/language-context.tsx:496-499 | what `setLanguage` stores is adopted again on the next mount |
| Language.LanguageProvider.constructor | src/contexts/language-context.tsx:487 | the initial language is en, over any storage |
| Language.LanguageProvider.LoadSaved | src/contexts/language-context.tsx:489-494 | the mount effect adopts the stored language by that rule, and leaves the storage unchanged |
| Language.LanguageProvider.SetLanguage | src/contexts/language-context.tsx:496-499 | the current language becomes l, and storage holds exactly l's code under "language" |
| Language.LanguageProvider.T | src/contexts/language-context.tsx:501-503 | `t(key)` looks the key up in the current language's table and falls back to the key |
| BlogCard.TagRowShown | src/components/blog-card.tsx:39-41 | a row is shown if and only if there is at least one tag; it holds the first tags in order, at most three, and all of them when there are three or fewer |
| BlogCard.TagRowFor | src/components/blog-card.tsx:39-53 | the tag row for missing, empty or listed tags; TagRowShown, MoreNote and MoreNoteCounts state what it shows |
| BlogCard.MoreNote | src/components/blog-card.tsx:49-53 | the note appears if and only if there are more than three tags, and it reads "+k more" with k the number of tags not shown |
| BlogCard.MoreNoteCounts | src/components/blog-card.tsx:41-51 | the shown tags plus the count in the note account for every tag |
| BlogCard.CardHref | src/components/blog-card.tsx:18 | the link is "/blog/" followed by the slug |
| Sitemap.BlogEntry | src/app/sitemap.ts:7-12 | a post's entry is monthly, with priority 0.7 |
| Sitemap.BlogEntries | src/app/sitemap.ts:7 | there is one entry per post, in the posts' order |
| Sitemap.Entries | src/app/sitemap.ts:14-40 | the sitemap has four entries more than there are posts |
| Sitemap.StaticPagesFirst | src/app/sitemap.ts:15-38 | the first four entries are home, about, blog and contact, with priorities 1, 0.8, 0.9 and 0.8 |
| Sitemap.PostEntries | src/app/sitemap.ts:7-12 | post k's entry is at position 4 + k, under base + "/blog/" + slug, monthly and with priority 0.7 |
| Sitemap.BlogEntriesAppend | src/app/sitemap.ts:39 | a new post only adds its own entry |

## Left out

- The month list `availableMonths` (src/app/appointment/page.tsx:132-145) is modelled by its result, the constant `AvailableMonths` (June to August 2025). The loop that builds it and the `toLocaleDateString` labels are not part of this model.
- Time zones are not modelled. The page takes `dateString` and `isToday` from `toISOString` in UTC, but takes `isCurrentMonth`, `dayNumber` and `isPastDate` from local time. The model uses one calendar for all of them, so the off-by-one date shift east or west of UTC is not captured.
- The clock is a parameter. "today" is a day number, and `isPastDate` compares day numbers, which matches comparing the cell's midnight with today's midnight.
- `lastDay` (src/app/appointment/page.tsx:101) is computed and never used, so it is not modelled.
- The HTML bodies of the mails are not modelled. Each message is reduced to its sender, recipients, reply address, subject and the labelled values its template interpolates. Emoji, styling and the static text of the templates are not modelled.
- `toLocaleDateString` and `toLocaleTimeString` in the appointment route are inputs (`formattedDate`, `formattedTime`), not computed.
- The mailers (Resend, nodemailer) are modelled by an outcome: the call returns, or it throws an error with a message. A Resend call that returns an error object without throwing counts as returned, as the code treats it. The behaviour of the Resend constructor without an API key is not part of this model.
- Console logging is not modelled.
- `fetch`, `localStorage` and `setTimeout` become parameters and events. The outcome of `fetch` is a `FetchOutcome`, the storage is a field of `LanguageProvider`, and the timer's callback is the method `ResetAfterSuccess`.
- React rendering, re-rendering and the order of state updates within one event are not modelled. Each handler applies its updates at once.
- JSON numbers are integers in `JsValue`, and arrays are not modelled. A price such as 150.5 or a field holding an array has no counterpart.
- `ContactRoute.Handle` and `CaglarContactRoute.Handle` do not check that name, email and subject are strings, because the code does not either. Values that `String(x)` converts are rendered as it renders them. An object with its own "toString" key makes `String(x)` throw, and this is followed to the catch the code reaches (see `JsValues.ToStringThrows`).
- `JsValues.ToJsString` writes every integer in plain decimal. JavaScript writes numbers of magnitude 10^21 and more in exponent form ("1e+21"), and JSON numbers beyond 2^53 lose precision; neither is modelled.
- `Availability.SelectedPrice` gives `undefined` for every identifier outside the three services. `servicePricing[id]` in src/app/appointment/page.tsx:148 would find an inherited `Object.prototype` member for "toString", "constructor" and the like. The page only passes the three identifiers of its buttons, so no reachable state is affected.
- Lengths of strings count Unicode scalar values. JavaScript's `.length` counts UTF-16 code units, so a character outside the Basic Multilingual Plane counts once here and twice there; no contract of the model compares a length with a JavaScript length.
- `CaglarContactRoute.Handle` requires `GMAIL_USER` to be a string or undefined, which is what `process.env` holds.
- The TypeError that `message.replace` throws for a message that is not a string is modelled with V8's text ("message.replace is not a function"). In the Gmail route the throw is caught and answered with 500.
- Language tables: each of the three tables (about 150 strings each) is represented by a sample of eight keys with their texts. Translation text is data, and no property depends on which keys are present beyond the sample.
- `Language.Translate` looks keys up in the map only. Inherited object properties such as "constructor" or "toString", which `translations[language][key]` would also find, are not modelled.
- The error that `useLanguage` throws outside a provider is not modelled, because it is a React usage error.
- `BookingWizard.Wizard.BeginSubmit` requires a non-empty name and email, which stand for the browser's `required` attribute. The browser's own format check of an `email` input (which accepts "a@b") is not modelled, so an address the browser would refuse still reaches the route here.
- `BookingWizard.Wizard.SelectMonth` does not require the datetime step. The picker is only rendered on that step, but nothing else depends on it.
- The sitemap's list of posts (`getAllPosts`) is an input. `lastModified` is recorded as the build time or the post's date text; no `Date` is parsed.
- Presentation-only pages and components, the contact and Gmail client forms, the QR-code modal, the project card and the project file loader are not part of this model.
