/** The fixed tables of the booking page: which half-hour slots are free on
    which ISO date, the list of half-hour slots the page offers, and the
    price of each service. */
module Availability {
  import opened Text
  import opened JsValues

  /** `mockAvailability`, the date-to-slots table: dates as "YYYY-MM-DD",
      slots as "HH:MM", written month by month. Dates missing from the
      table have no free slot. */
  const MockAvailability: map<string, seq<string>> := JuneAvailability + JulyAvailability + AugustAvailability

  /** The June 2025 entries. */
  const JuneAvailability: map<string, seq<string>> := map[
    "2025-06-02" := ["10:00", "10:30", "11:30", "14:00", "14:30", "15:00"],
    "2025-06-03" := ["10:00", "11:00", "13:00", "13:30", "15:30"],
    "2025-06-05" := ["10:00", "10:30", "11:00", "11:30", "12:00", "14:00", "14:30", "15:00", "15:30"],
    "2025-06-06" := ["10:30", "11:00", "12:00", "13:00", "14:00", "15:00"],
    "2025-06-09" := ["10:00", "10:30", "11:00", "11:30", "12:00", "13:00", "13:30", "14:00", "14:30", "15:00", "15:30"],
    "2025-06-10" := ["11:00", "11:30", "14:00", "14:30", "15:00", "15:30"],
    "2025-06-12" := ["10:00", "10:30", "11:00", "12:00", "13:00", "13:30", "14:00", "15:30"],
    "2025-06-13" := ["10:00", "11:00", "11:30", "12:00", "14:00", "14:30", "15:00"],
    "2025-06-16" := ["10:30", "11:00", "11:30", "13:00", "13:30", "14:00", "15:00", "15:30"],
    "2025-06-17" := ["10:00", "10:30", "11:00", "14:00", "14:30", "15:00"],
    "2025-06-19" := ["10:00", "11:00", "13:00", "13:30", "15:30"],
    "2025-06-20" := ["10:30", "11:00", "12:00", "13:00", "14:00", "15:00"],
    "2025-06-23" := ["10:00", "10:30", "11:00", "11:30", "12:00", "14:00", "14:30", "15:00", "15:30"],
    "2025-06-24" := ["11:00", "11:30", "14:00", "14:30", "15:00", "15:30"],
    "2025-06-26" := ["10:00", "10:30", "11:00", "12:00", "13:00", "13:30", "14:00", "15:30"],
    "2025-06-27" := ["10:00", "11:00", "11:30", "12:00", "14:00", "14:30", "15:00"],
    "2025-06-30" := ["10:30", "11:00", "11:30", "13:00", "13:30", "14:00", "15:00", "15:30"]
  ]

  /** The July 2025 entries. */
  const JulyAvailability: map<string, seq<string>> := map[
    "2025-07-01" := ["10:00", "10:30", "11:30", "14:00", "14:30", "15:00"],
    "2025-07-03" := ["10:00", "11:00", "13:00", "13:30", "15:30"],
    "2025-07-04" := ["10:30", "11:00", "12:00", "13:00", "14:00", "15:00"],
    "2025-07-07" := ["10:00", "10:30", "11:00", "11:30", "12:00", "14:00", "14:30", "15:00", "15:30"],
    "2025-07-08" := ["11:00", "11:30", "14:00", "14:30", "15:00", "15:30"],
    "2025-07-10" := ["10:00", "10:30", "11:00", "12:00", "13:00", "13:30", "14:00", "15:30"],
    "2025-07-11" := ["10:00", "11:00", "11:30", "12:00", "14:00", "14:30", "15:00"],
    "2025-07-14" := ["10:30", "11:00", "11:30", "13:00", "13:30", "14:00", "15:00", "15:30"],
    "2025-07-15" := ["10:00", "10:30", "11:30", "14:00", "14:30", "15:00"],
    "2025-07-17" := ["10:00", "11:00", "13:00", "13:30", "15:30"],
    "2025-07-18" := ["10:30", "11:00", "12:00", "13:00", "14:00", "15:00"],
    "2025-07-21" := ["10:00", "10:30", "11:00", "11:30", "12:00", "14:00", "14:30", "15:00", "15:30"],
    "2025-07-22" := ["11:00", "11:30", "14:00", "14:30", "15:00", "15:30"],
    "2025-07-24" := ["10:00", "10:30", "11:00", "12:00", "13:00", "13:30", "14:00", "15:30"],
    "2025-07-25" := ["10:00", "11:00", "11:30", "12:00", "14:00", "14:30", "15:00"],
    "2025-07-28" := ["10:30", "11:00", "11:30", "13:00", "13:30", "14:00", "15:00", "15:30"],
    "2025-07-29" := ["10:00", "10:30", "11:30", "14:00", "14:30", "15:00"],
    "2025-07-31" := ["10:00", "11:00", "13:00", "13:30", "15:30"]
  ]

  /** The August 2025 entries. */
  const AugustAvailability: map<string, seq<string>> := map[
    "2025-08-01" := ["10:30", "11:00", "12:00", "13:00", "14:00", "15:00"],
    "2025-08-04" := ["10:00", "10:30", "11:00", "11:30", "12:00", "14:00", "14:30", "15:00", "15:30"],
    "2025-08-05" := ["11:00", "11:30", "14:00", "14:30", "15:00", "15:30"],
    "2025-08-07" := ["10:00", "10:30", "11:00", "12:00", "13:00", "13:30", "14:00", "15:30"],
    "2025-08-08" := ["10:00", "11:00", "11:30", "12:00", "14:00", "14:30", "15:00"],
    "2025-08-11" := ["10:30", "11:00", "11:30", "13:00", "13:30", "14:00", "15:00", "15:30"],
    "2025-08-12" := ["10:00", "10:30", "11:30", "14:00", "14:30", "15:00"],
    "2025-08-14" := ["10:00", "11:00", "13:00", "13:30", "15:30"],
    "2025-08-15" := ["10:30", "11:00", "12:00", "13:00", "14:00", "15:00"],
    "2025-08-18" := ["10:00", "10:30", "11:00", "11:30", "12:00", "14:00", "14:30", "15:00", "15:30"],
    "2025-08-19" := ["11:00", "11:30", "14:00", "14:30", "15:00", "15:30"],
    "2025-08-21" := ["10:00", "10:30", "11:00", "12:00", "13:00", "13:30", "14:00", "15:30"],
    "2025-08-22" := ["10:00", "11:00", "11:30", "12:00", "14:00", "14:30", "15:00"],
    "2025-08-25" := ["10:30", "11:00", "11:30", "13:00", "13:30", "14:00", "15:00", "15:30"],
    "2025-08-26" := ["10:00", "10:30", "11:30", "14:00", "14:30", "15:00"],
    "2025-08-28" := ["10:00", "11:00", "13:00", "13:30", "15:30"],
    "2025-08-29" := ["10:30", "11:00", "12:00", "13:00", "14:00", "15:00"]
  ]


  /** The half-hour starting times the page lays out as buttons. */
  const TimeSlots: seq<string> := [
    "10:00", "10:30", "11:00", "11:30", "12:00", "12:30",
    "13:00", "13:30", "14:00", "14:30", "15:00", "15:30"
  ]

  /** Service identifiers and their prices in euro. */
  const ServicePricing: map<string, nat> := map[
    "software-development" := 150,
    "international-study" := 100,
    "business-helper" := 120
  ]

  /** `mockAvailability[date] || []`: the table entry, or no slot at all. */
  function SlotsFor(date: string): (r: seq<string>)
    ensures date !in MockAvailability ==> r == []
  {
    if date in MockAvailability then MockAvailability[date] else []
  }

  /** An entry of the table: a ten-character date with at least one slot,
      each of them one of the offered buttons. */
  predicate GoodEntry(table: map<string, seq<string>>, date: string)
    requires date in table
  {
    |date| == 10 && table[date] != [] && forall slot :: slot in table[date] ==> slot in TimeSlots
  }

  lemma JuneEntries(date: string)
    requires date in JuneAvailability
    ensures GoodEntry(JuneAvailability, date)
  {
  }

  lemma JulyEntries(date: string)
    requires date in JulyAvailability
    ensures GoodEntry(JulyAvailability, date)
  {
  }

  lemma AugustEntries(date: string)
    requires date in AugustAvailability
    ensures GoodEntry(AugustAvailability, date)
  {
  }

  lemma TableEntries(date: string)
    requires date in MockAvailability
    ensures GoodEntry(MockAvailability, date)
  {
    if date in AugustAvailability {
      AugustEntries(date);
    } else if date in JulyAvailability {
      JulyEntries(date);
    } else {
      JuneEntries(date);
    }
  }

  lemma JuneKeys()
    ensures forall d :: d in JuneAvailability ==> |d| == 10 && d[6] == '6'
  {
  }

  lemma JulyKeys()
    ensures forall d :: d in JulyAvailability ==> |d| == 10 && d[6] == '7'
  {
  }

  lemma AugustKeys()
    ensures forall d :: d in AugustAvailability ==> |d| == 10 && d[6] == '8'
  {
  }

  /** The months do not overlap, so a June date keeps its June entry. */
  lemma JuneEntryKept(date: string)
    requires date in JuneAvailability
    ensures date in MockAvailability && SlotsFor(date) == JuneAvailability[date]
  {
    JuneKeys();
    JulyKeys();
    AugustKeys();
    assert date !in JulyAvailability && date !in AugustAvailability;
    assert MockAvailability[date] == JuneAvailability[date];
  }

  /** The first date the table lists, 2025-06-02, with its six slots. */
  lemma FirstListedDate()
    ensures "2025-06-02" in MockAvailability
    ensures SlotsFor("2025-06-02") == ["10:00", "10:30", "11:30", "14:00", "14:30", "15:00"]
  {
    assert "2025-06-02" in JuneAvailability;
    JuneEntryKept("2025-06-02");
  }

  /** A date has a free slot exactly when the table lists it. */
  lemma SlotsForNonEmpty(date: string)
    ensures SlotsFor(date) != [] <==> date in MockAvailability
  {
    if date in MockAvailability {
      TableEntries(date);
    }
  }

  /** Every free slot is one of the buttons the page lays out. */
  lemma SlotsAreTimeSlots(date: string, slot: string)
    requires slot in SlotsFor(date)
    ensures slot in TimeSlots
  {
    TableEntries(date);
  }

  /** The empty date, which the page shows as "no date chosen", has no slot. */
  lemma NoSlotsWithoutDate()
    ensures SlotsFor("") == []
  {
    if "" in MockAvailability {
      TableEntries("");
    }
  }

  /** `selectedService ? servicePricing[selectedService] : 0`: zero for no
      service, the listed price for a listed service and `undefined` for
      any other identifier. */
  function SelectedPrice(service: string): (r: JsValue)
    ensures service == "" ==> r == Number(0)
    ensures service in ServicePricing ==> r == Number(ServicePricing[service])
    ensures service != "" && service !in ServicePricing ==> r == Undefined
  {
    if service == "" then Number(0)
    else if service in ServicePricing then Number(ServicePricing[service])
    else Undefined
  }

  /** The price is a truthy value exactly for the three listed services,
      and each of them costs 150, 100 or 120 euro. */
  lemma SelectedPriceTruthy(service: string)
    ensures Truthy(SelectedPrice(service)) <==> service in ServicePricing
    ensures service in ServicePricing ==>
      SelectedPrice(service) in {Number(150), Number(100), Number(120)}
  {
  }

  /** A time of day as "HH:MM", from minutes after midnight: two digits of
      the hour, a colon and two digits of the minute. */
  function ClockLabel(minutes: nat): (r: string)
    requires minutes < 24 * 60
    ensures |r| == 5 && r[2] == ':'
  {
    var h, m := minutes / 60, minutes % 60;
    [DigitChar(h / 10), DigitChar(h % 10), ':', DigitChar(m / 10), DigitChar(m % 10)]
  }

  /** Different times of day have different labels. */
  lemma ClockLabelInjective(a: nat, b: nat)
    requires a < 24 * 60 && b < 24 * 60 && ClockLabel(a) == ClockLabel(b)
    ensures a == b
  {
    var ha, ma, hb, mb := a / 60, a % 60, b / 60, b % 60;
    assert ClockLabel(a)[0] == ClockLabel(b)[0] && ClockLabel(a)[1] == ClockLabel(b)[1];
    assert ClockLabel(a)[3] == ClockLabel(b)[3] && ClockLabel(a)[4] == ClockLabel(b)[4];
    assert ha / 10 == hb / 10 && ha % 10 == hb % 10;
    assert ma / 10 == mb / 10 && ma % 10 == mb % 10;
    assert ha == hb && ma == mb;
  }

  /** The k-th button starts 30 * k minutes after ten o'clock. */
  lemma TimeSlotClock(k: nat)
    requires k < |TimeSlots|
    ensures TimeSlots[k] == ClockLabel(600 + 30 * k)
  {
    if k == 0 {
      assert TimeSlots[0] == ClockLabel(600);
    } else if k == 1 {
      assert TimeSlots[1] == ClockLabel(630);
    } else if k == 2 {
      assert TimeSlots[2] == ClockLabel(660);
    } else if k == 3 {
      assert TimeSlots[3] == ClockLabel(690);
    } else if k == 4 {
      assert TimeSlots[4] == ClockLabel(720);
    } else if k == 5 {
      assert TimeSlots[5] == ClockLabel(750);
    } else if k == 6 {
      assert TimeSlots[6] == ClockLabel(780);
    } else if k == 7 {
      assert TimeSlots[7] == ClockLabel(810);
    } else if k == 8 {
      assert TimeSlots[8] == ClockLabel(840);
    } else if k == 9 {
      assert TimeSlots[9] == ClockLabel(870);
    } else if k == 10 {
      assert TimeSlots[10] == ClockLabel(900);
    } else {
      assert TimeSlots[11] == ClockLabel(930);
    }
  }

  /** The buttons are distinct, so indexOf finds each at its own place. */
  lemma TimeSlotIndex(k: nat)
    requires k < |TimeSlots|
    ensures IndexOf(TimeSlots, TimeSlots[k]) == k
  {
    var i := IndexOf(TimeSlots, TimeSlots[k]);
    TimeSlotClock(i);
    TimeSlotClock(k);
    ClockLabelInjective(600 + 30 * i, 600 + 30 * k);
  }

  /** `timeSlots[timeSlots.indexOf(time) + 1] || "16:00"`. */
  function EndTimeLabel(time: string): (r: string)
    ensures r == "16:00" || r in TimeSlots
  {
    var next := IndexOf(TimeSlots, time) + 1;
    if next < |TimeSlots| && TimeSlots[next] != "" then TimeSlots[next] else "16:00"
  }

  /** The end label of an offered slot is the next slot, and "16:00" after
      the last one, which ends at four o'clock. */
  lemma EndTimeNextSlot(k: nat)
    requires k < |TimeSlots|
    ensures EndTimeLabel(TimeSlots[k]) == if k + 1 < |TimeSlots| then TimeSlots[k + 1] else "16:00"
  {
    TimeSlotIndex(k);
    assert forall j :: 0 <= j < |TimeSlots| ==> |TimeSlots[j]| == 5;
  }

  /** The label after the last slot is the time half an hour after it. */
  lemma EndOfDayLabel()
    ensures "16:00" == ClockLabel(600 + 30 * |TimeSlots|)
  {
  }

  /** A time that is not offered has index -1, so its label is the first
      slot, "10:00". */
  lemma EndTimeOfUnknownTime(time: string)
    requires time !in TimeSlots
    ensures EndTimeLabel(time) == "10:00"
  {
  }
}
