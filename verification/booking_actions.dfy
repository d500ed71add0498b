/** The booking actions of `actions/_booking.py`: the form setters that
    validate the date, party size and author, the questions that follow a
    rejection, and the lifecycle that opens, confirms, stores, cancels and
    shows a booking. Each action receives the slots it reads as typed values
    and returns the events it emits together with the responses it utters. */
module BookingActions {
  import opened Wrappers
  import opened Strings
  import opened Calendar
  import opened Places
  import opened Records
  import opened Keys
  import opened KvStore
  import opened RasaUtils
  import opened History
  import SearchUtils

  const HistorySlot: string := "booking_history"
  const SelectedSlot: string := "selected_bookings"
  const PlaceSlot: string := "booking_place"
  const DateTimeSlot: string := "booking_datetime"
  const DateTimeErrorSlot: string := "booking_datetime_error"
  const PeopleSlot: string := "booking_people_count"
  const PeopleErrorSlot: string := "booking_people_count_error"
  const AuthorSlot: string := "booking_author"

  /** The slots of the booking form that a new booking starts empty. */
  const FormSlots: seq<string> := [DateTimeSlot, DateTimeErrorSlot, PeopleSlot, PeopleErrorSlot, AuthorSlot]

  /** The outcome of a form setter: the value and no error when the input is
      accepted, or no value and the reason when it is not. */
  function Verdict(slot: string, errorSlot: string, value: Value, error: Option<string>): (r: seq<Event>)
    ensures |r| == 2 && r[0].SlotSet? && r[1].SlotSet?
    ensures r[0].slot == slot && r[1].slot == errorSlot
    ensures error.None? ==> r[0].value == value && r[1].value == Null
    ensures error.Some? ==> r[0].value == Null && r[1].value == Text(error.value)
  {
    match error
    case None => [SlotSet(slot, value), SlotSet(errorSlot, Null)]
    case Some(e) => [SlotSet(slot, Null), SlotSet(errorSlot, Text(e))]
  }

  // ------------------------------------------------------------------------
  // Date and time of the booking
  // ------------------------------------------------------------------------

  /** The reasons a date can be refused for. */
  const DateTimeErrors: set<string> := {"past", "far", "coarse", "closed"}

  /** The first parse of the first entity value that parses to anything. */
  function FirstTime(values: seq<string>, parse: string -> seq<Time>): (r: Option<Time>)
    ensures r.None? <==> forall k :: 0 <= k < |values| ==> |parse(values[k])| == 0
    ensures r.Some? ==> exists k :: 0 <= k < |values| && |parse(values[k])| > 0
                                    && r.value == parse(values[k])[0]
                                    && forall j :: 0 <= j < k ==> |parse(values[j])| == 0
    decreases |values|
  {
    if |values| == 0 then None
    else if |parse(values[0])| > 0 then Some(parse(values[0])[0])
    else
      var rest := FirstTime(values[1..], parse);
      if rest.Some? then
        var k :| 0 <= k < |values[1..]| && |parse(values[1..][k])| > 0
                 && rest.value == parse(values[1..][k])[0]
                 && forall j :: 0 <= j < k ==> |parse(values[1..][j])| == 0;
        assert forall j :: 0 <= j < k + 1 ==> |parse(values[j])| == 0 by {
          forall j | 0 <= j < k + 1 ensures |parse(values[j])| == 0 {
            if j > 0 { assert values[j] == values[1..][j - 1]; }
          }
        }
        assert values[k + 1] == values[1..][k];
        rest
      else
        assert forall j :: 1 <= j < |values| ==> values[j] == values[1..][j - 1];
        rest
  }

  /** The moment a parsed time designates and its grain: an interval counts
      from its start. */
  function StartOf(t: Time): (r: (DateTime, Grain))
    ensures t.At? ==> r == (t.instant.value, t.instant.grain)
    ensures t.Between? ==> r == (t.start.value, t.start.grain)
  {
    match t
    case At(i) => (i.value, i.grain)
    case Between(s, _) => (s.value, s.grain)
  }

  /** The "more than four weeks ahead" test as written: only the days of the
      month are compared, so it fires only near the start of a month. */
  predicate FarAsWritten(date: DateTime, now: DateTime) {
    date.date.day > now.date.day + 28
  }

  /** The evidently intended test: more than 28 days after now. */
  predicate Far(date: DateTime, now: DateTime) {
    Ticks(date) > Ticks(now) + 28 * MicrosPerDay
  }

  /** The checks a parsed date goes through, in order, with the "far" test as
      a parameter: the reason it is refused for, or None when it is accepted.
      A place without usable opening hours makes the whole action fail. */
  function CheckDateTime(date: DateTime, grain: Grain, now: DateTime, place: Place,
                         far: (DateTime, DateTime) -> bool): (r: Result<Option<string>>)
    ensures Before(date, now) ==> r == Ok(Some("past"))
    ensures !Before(date, now) && far(date, now) ==> r == Ok(Some("far"))
    ensures !Before(date, now) && !far(date, now) && !IsFineGrain(grain) ==> r == Ok(Some("coarse"))
    ensures !Before(date, now) && !far(date, now) && IsFineGrain(grain) ==>
              && (r.Err? <==> SearchUtils.PlaceOpen(place, date).Err?)
              && (r.Err? ==> r.error == SearchUtils.PlaceOpen(place, date).error)
              && (r == Ok(Some("closed")) <==> SearchUtils.PlaceOpen(place, date) == Ok(false))
    ensures r.Ok? && r.value.Some? ==> r.value.value in DateTimeErrors
    ensures r == Ok(None) <==> !Before(date, now) && !far(date, now) && IsFineGrain(grain)
                               && SearchUtils.PlaceOpen(place, date) == Ok(true)
  {
    if Before(date, now) then Ok(Some("past"))
    else if far(date, now) then Ok(Some("far"))
    else if !IsFineGrain(grain) then Ok(Some("coarse"))
    else
      var open :- SearchUtils.PlaceOpen(place, date);
      if !open then Ok(Some("closed")) else Ok(None)
  }

  /** Whether the booking form accepts a date of the given grain at `place`,
      under the given "far" test. */
  predicate AcceptsDateTime(date: DateTime, grain: Grain, now: DateTime, place: Place,
                            far: (DateTime, DateTime) -> bool) {
    !Before(date, now) && !far(date, now) && IsFineGrain(grain)
    && SearchUtils.PlaceOpen(place, date) == Ok(true)
  }

  /** The setter's body with the "far" test as a parameter: the first
      "datetime" entity that parses decides; nothing is set when none does. */
  function DateTimeEvents(m: Message, parse: string -> seq<Time>, now: DateTime, place: Place,
                          far: (DateTime, DateTime) -> bool): Result<seq<Event>>
  {
    var values := EntityValues(m, "datetime");
    if |values| == 0 then Ok([])
    else
      match FirstTime(values, parse)
      case None => Ok([])
      case Some(t) =>
        var (date, grain) := StartOf(t);
        var error :- CheckDateTime(date, grain, now, place, far);
        Ok(Verdict(DateTimeSlot, DateTimeErrorSlot, DateTimeValue(date), error))
  }

  /** `action_set_booking_datetime` as written: a date is "far" when its day
      of the month exceeds today's by more than 28. */
  function SetBookingDateTime(m: Message, parse: string -> seq<Time>, now: DateTime, place: Place): (r: Result<seq<Event>>)
    ensures FirstTime(EntityValues(m, "datetime"), parse).None? ==> r == Ok([])
    ensures FirstTime(EntityValues(m, "datetime"), parse).Some? ==>
              var (date, grain) := StartOf(FirstTime(EntityValues(m, "datetime"), parse).value);
              && (r.Err? <==> !Before(date, now) && !(date.date.day > now.date.day + 28) && IsFineGrain(grain)
                              && SearchUtils.PlaceOpen(place, date).Err?)
              && (r.Ok? ==> && |r.value| == 2
                            && r.value[0].SlotSet? && r.value[0].slot == DateTimeSlot
                            && r.value[1].SlotSet? && r.value[1].slot == DateTimeErrorSlot
                            && (r.value[0].value == DateTimeValue(date) <==> AcceptsDateTime(date, grain, now, place, FarAsWritten))
                            && (r.value[1].value == Null <==> AcceptsDateTime(date, grain, now, place, FarAsWritten))
                            && (r.value[1].value == Text("far") <==> !Before(date, now) && date.date.day > now.date.day + 28)
                            && (r.value[1].value != Null ==> r.value[1].value.Text?
                                                             && r.value[1].value.s in DateTimeErrors))
  {
    DateTimeEvents(m, parse, now, place, FarAsWritten)
  }

  /** The setter with the evidently intended test: a date is "far" when it
      lies more than 28 days after now. */
  function SetBookingDateTimeIntended(m: Message, parse: string -> seq<Time>, now: DateTime, place: Place): (r: Result<seq<Event>>)
    ensures FirstTime(EntityValues(m, "datetime"), parse).None? ==> r == Ok([])
    ensures FirstTime(EntityValues(m, "datetime"), parse).Some? ==>
              var (date, grain) := StartOf(FirstTime(EntityValues(m, "datetime"), parse).value);
              && (r.Err? <==> !Before(date, now) && !Far(date, now) && IsFineGrain(grain)
                              && SearchUtils.PlaceOpen(place, date).Err?)
              && (r.Ok? ==> && |r.value| == 2
                            && r.value[0].SlotSet? && r.value[0].slot == DateTimeSlot
                            && r.value[1].SlotSet? && r.value[1].slot == DateTimeErrorSlot
                            && (r.value[0].value == DateTimeValue(date) <==> AcceptsDateTime(date, grain, now, place, Far))
                            && (r.value[1].value == Null <==> AcceptsDateTime(date, grain, now, place, Far))
                            && (r.value[1].value == Text("far") <==> !Before(date, now) && Far(date, now))
                            && (r.value[1].value != Null ==> r.value[1].value.Text?
                                                             && r.value[1].value.s in DateTimeErrors))
  {
    DateTimeEvents(m, parse, now, place, Far)
  }

  /** `action_ask_booking_datetime`: the question that fits the recorded
      error; an error it does not know raises RuntimeError. */
  function AskBookingDateTime(error: Value): (r: Result<string>)
    ensures r.Ok? <==> error == Null || (error.Text? && error.s in DateTimeErrors)
    ensures error == Null ==> r == Ok("utter_ask_booking_datetime")
    ensures error.Text? && error.s in DateTimeErrors ==> r == Ok("utter_ask_booking_datetime_" + error.s)
    ensures r.Err? ==> r.error == RuntimeError
  {
    match error
    case Null => Ok("utter_ask_booking_datetime")
    case Text("coarse") =>
      assert "utter_ask_booking_datetime_coarse" == "utter_ask_booking_datetime_" + "coarse";
      Ok("utter_ask_booking_datetime_coarse")
    case Text("past") =>
      assert "utter_ask_booking_datetime_past" == "utter_ask_booking_datetime_" + "past";
      Ok("utter_ask_booking_datetime_past")
    case Text("far") =>
      assert "utter_ask_booking_datetime_far" == "utter_ask_booking_datetime_" + "far";
      Ok("utter_ask_booking_datetime_far")
    case Text("closed") =>
      assert "utter_ask_booking_datetime_closed" == "utter_ask_booking_datetime_" + "closed";
      Ok("utter_ask_booking_datetime_closed")
    case _ => Err(RuntimeError)
  }

  /** Whatever the date setter records, the date question understands: if
      the error slot held an understood value before, it still does after. */
  lemma DateTimeErrorsAreAsked(slots: Slots, m: Message, parse: string -> seq<Time>, now: DateTime, place: Place)
    requires AskBookingDateTime(GetSlot(slots, DateTimeErrorSlot, Null)).Ok?
    requires SetBookingDateTime(m, parse, now, place).Ok?
    ensures var after := ApplyEvents(slots, SetBookingDateTime(m, parse, now, place).value);
            AskBookingDateTime(GetSlot(after, DateTimeErrorSlot, Null)).Ok?
  {
    var events := SetBookingDateTime(m, parse, now, place).value;
    if |events| == 0 {
      assert ApplyEvents(slots, events) == slots;
    } else {
      LastSlotSetWins(slots, events, 1);
    }
  }

  /** The day-of-month comparison never fires once the current day is past
      the 2nd, since no month has more than 31 days. */
  lemma FarAsWrittenRarelyFires(date: DateTime, now: DateTime)
    requires date.date.day <= 31 && now.date.day >= 3
    ensures !FarAsWritten(date, now)
  {
  }

  /** As written, a date five months ahead is not far, and a far date
      followed by a later one that is not: 2024-01-31 is refused on New
      Year's Day while 2024-02-01 and 2024-06-15 pass the test. */
  lemma FarAsWrittenIsNotMonotone()
    ensures var now := DateTime(Date(2024, 1, 1), 12 * 3600 * 1000000);
            var jan31 := DateTime(Date(2024, 1, 31), 12 * 3600 * 1000000);
            var feb1 := DateTime(Date(2024, 2, 1), 12 * 3600 * 1000000);
            var jun15 := DateTime(Date(2024, 6, 15), 12 * 3600 * 1000000);
            && FarAsWritten(jan31, now) && Ticks(jan31) < Ticks(feb1) && !FarAsWritten(feb1, now)
            && !FarAsWritten(jun15, now) && Far(jun15, now) && Far(feb1, now)
  {
    var now := DateTime(Date(2024, 1, 1), 12 * 3600 * 1000000);
    assert DayNumber(now.date) == 19723;
    assert DayNumber(Date(2024, 1, 31)) == 19753;
    assert DayNumber(Date(2024, 2, 1)) == 19754;
    assert DayNumber(Date(2024, 6, 15)) == 19889;
  }

  /** The intended test is monotone: every date after a far date is far. */
  lemma FarIsMonotone(a: DateTime, b: DateTime, now: DateTime)
    requires Far(a, now) && Ticks(a) <= Ticks(b)
    ensures Far(b, now)
  {
  }

  /** The checks as written accept a June date on New Year's Day at a place
      that never closes, where the intended test refuses it as far. */
  lemma SetterAsWrittenAcceptsDistantDate()
    ensures var now := DateTime(Date(2024, 1, 1), 12 * 3600 * 1000000);
            var jun15 := DateTime(Date(2024, 6, 15), 20 * 3600 * 1000000);
            var place := Place(None, None, None, Some(true), None, None,
                               Some(seq(7, _ => [Period(None, None)])));
            && CheckDateTime(jun15, Hour, now, place, FarAsWritten) == Ok(None)
            && CheckDateTime(jun15, Hour, now, place, Far) == Ok(Some("far"))
  {
    var now := DateTime(Date(2024, 1, 1), 12 * 3600 * 1000000);
    var jun15 := DateTime(Date(2024, 6, 15), 20 * 3600 * 1000000);
    var place := Place(None, None, None, Some(true), None, None,
                       Some(seq(7, _ => [Period(None, None)])));
    assert DayNumber(now.date) == 19723;
    assert DayNumber(jun15.date) == 19889;
    var day := place.openingHours.value[Weekday(jun15.date)];
    assert SearchUtils.Admits(day[0], jun15.time);
    assert SearchUtils.PlaceOpen(place, jun15) == Ok(true);
  }

  // ------------------------------------------------------------------------
  // Party size
  // ------------------------------------------------------------------------

  /** The reasons a party size can be refused for. */
  const PeopleCountErrors: set<string> := {"small", "large"}

  /** `action_set_booking_people_count`: the first number in the first
      "people_count" entity; between 1 and 10 people are accepted. */
  function SetBookingPeopleCount(m: Message, parseNumbers: string -> seq<int>): (r: seq<Event>)
    ensures |EntityValues(m, "people_count")| == 0 ==> r == []
    ensures |EntityValues(m, "people_count")| > 0 && |parseNumbers(EntityValues(m, "people_count")[0])| == 0 ==> r == []
    ensures |EntityValues(m, "people_count")| > 0 && |parseNumbers(EntityValues(m, "people_count")[0])| > 0 ==>
              var count := parseNumbers(EntityValues(m, "people_count")[0])[0];
              && |r| == 2
              && r[0].SlotSet? && r[0].slot == PeopleSlot
              && r[1].SlotSet? && r[1].slot == PeopleErrorSlot
              && (r[0].value == Int(count) <==> 1 <= count <= 10)
              && (r[1].value == Null <==> 1 <= count <= 10)
              && (r[1].value == Text("small") <==> count < 1)
              && (r[1].value == Text("large") <==> count > 10)
  {
    var values := EntityValues(m, "people_count");
    if |values| == 0 then []
    else
      var counts := parseNumbers(values[0]);
      if |counts| == 0 then []
      else
        var count := counts[0];
        var error := if count < 1 then Some("small") else if count > 10 then Some("large") else None;
        Verdict(PeopleSlot, PeopleErrorSlot, Int(count), error)
  }

  /** `action_ask_booking_people_count`. */
  function AskBookingPeopleCount(error: Value): (r: Result<string>)
    ensures r.Ok? <==> error == Null || (error.Text? && error.s in PeopleCountErrors)
    ensures error == Null ==> r == Ok("utter_ask_booking_people_count")
    ensures error.Text? && error.s in PeopleCountErrors ==> r == Ok("utter_ask_booking_people_count_" + error.s)
    ensures r.Err? ==> r.error == RuntimeError
  {
    match error
    case Null => Ok("utter_ask_booking_people_count")
    case Text("small") =>
      assert "utter_ask_booking_people_count_small" == "utter_ask_booking_people_count_" + "small";
      Ok("utter_ask_booking_people_count_small")
    case Text("large") =>
      assert "utter_ask_booking_people_count_large" == "utter_ask_booking_people_count_" + "large";
      Ok("utter_ask_booking_people_count_large")
    case _ => Err(RuntimeError)
  }

  /** Whatever the party-size setter records, the party-size question
      understands. */
  lemma PeopleCountErrorsAreAsked(slots: Slots, m: Message, parseNumbers: string -> seq<int>)
    requires AskBookingPeopleCount(GetSlot(slots, PeopleErrorSlot, Null)).Ok?
    ensures var after := ApplyEvents(slots, SetBookingPeopleCount(m, parseNumbers));
            AskBookingPeopleCount(GetSlot(after, PeopleErrorSlot, Null)).Ok?
  {
    var events := SetBookingPeopleCount(m, parseNumbers);
    if |events| == 0 {
      assert ApplyEvents(slots, events) == slots;
    } else {
      LastSlotSetWins(slots, events, 1);
    }
  }

  // ------------------------------------------------------------------------
  // Author
  // ------------------------------------------------------------------------

  /** The placeholder the bot stores as the user's name when it has none. */
  const UnknownName: string := "\U{8}"

  /** `action_set_booking_author`: affirming the offered name while the
      author is being asked for stores the known name; otherwise the first
      "user_name" entity, if any, becomes the author. */
  function SetBookingAuthor(requestedSlot: Value, m: Message, userName: Value): (r: seq<Event>)
    ensures |r| <= 1
    ensures requestedSlot == Text(AuthorSlot) && "affirm" in GetIntents(m) ==> r == [SlotSet(AuthorSlot, userName)]
    ensures !(requestedSlot == Text(AuthorSlot) && "affirm" in GetIntents(m)) ==>
              (r == [] <==> |EntityValues(m, "user_name")| == 0)
              && (r != [] ==> r[0] == SlotSet(AuthorSlot, Text(EntityValues(m, "user_name")[0])))
  {
    if requestedSlot == Text(AuthorSlot) && "affirm" in GetIntents(m) then
      [SlotSet(AuthorSlot, userName)]
    else
      var values := EntityValues(m, "user_name");
      if |values| == 0 then [] else [SlotSet(AuthorSlot, Text(values[0]))]
  }

  /** `action_ask_booking_author`: the question offers the known name unless
      it is the placeholder. */
  function AskBookingAuthor(userName: Value): (r: string)
    ensures r == "utter_ask_booking_author" <==> userName == Text(UnknownName)
    ensures r == "utter_ask_booking_author_with_name" <==> userName != Text(UnknownName)
  {
    if userName != Text(UnknownName) then "utter_ask_booking_author_with_name" else "utter_ask_booking_author"
  }

  /** Accepting the offered name stores exactly that name as the author. */
  lemma AffirmedNameBecomesAuthor(slots: Slots, m: Message, userName: string)
    requires AskBookingAuthor(Text(userName)) == "utter_ask_booking_author_with_name"
    requires "affirm" in GetIntents(m)
    ensures var after := ApplyEvents(slots, SetBookingAuthor(Text(AuthorSlot), m, Text(userName)));
            GetSlot(after, AuthorSlot, Null) == Text(userName) && userName != UnknownName
  {
    GetSlotAfterSet(slots, [], AuthorSlot, Text(userName), Null);
    assert [] + [SlotSet(AuthorSlot, Text(userName))] == [SlotSet(AuthorSlot, Text(userName))];
  }

  // ------------------------------------------------------------------------
  // The selected search result
  // ------------------------------------------------------------------------

  /** `search_history[selected_searches[0]]` looked up in the store, after
      `selected_results[0]` has been read: IndexError for a missing position,
      KeyError for a placeholder or unknown key. */
  function ChosenSearch(store: Kv, searchHistory: Entries, selectedSearches: seq<int>,
                        selectedResults: seq<int>): (r: Result<SearchData>)
    ensures r.Ok? <==> |selectedResults| > 0 && SelectedEntry(searchHistory, selectedSearches).Ok?
                       && Lookup(store.searches, SelectedEntry(searchHistory, selectedSearches).value).Ok?
    ensures r.Ok? ==> var entry := SelectedEntry(searchHistory, selectedSearches).value;
                      entry.Some? && r.value == store.searches[entry.value]
    ensures r.Err? ==> (r.error == IndexError <==> |selectedResults| == 0 || SelectedEntry(searchHistory, selectedSearches).Err?)
    ensures r.Err? ==> r.error == IndexError || r.error == KeyError
  {
    if |selectedSearches| == 0 || |selectedResults| == 0 then Err(IndexError)
    else
      var entry :- SelectedEntry(searchHistory, selectedSearches);
      Lookup(store.searches, entry)
  }

  /** The selected result of the chosen search; a search without results
      raises `missing`. */
  function ChosenPlace(store: Kv, searchHistory: Entries, selectedSearches: seq<int>,
                       selectedResults: seq<int>, missing: Error): (r: Result<Place>)
    ensures r.Ok? <==> ChosenSearch(store, searchHistory, selectedSearches, selectedResults).Ok?
                       && ChosenSearch(store, searchHistory, selectedSearches, selectedResults).value.results.Some?
                       && PyIndex(ChosenSearch(store, searchHistory, selectedSearches, selectedResults).value.results.value,
                                  selectedResults[0]).Ok?
    ensures r.Ok? ==> r == PyIndex(ChosenSearch(store, searchHistory, selectedSearches, selectedResults).value.results.value,
                                   selectedResults[0])
    ensures ChosenSearch(store, searchHistory, selectedSearches, selectedResults).Err? ==>
              r == ChosenSearch(store, searchHistory, selectedSearches, selectedResults).PropagateFailure()
    ensures ChosenSearch(store, searchHistory, selectedSearches, selectedResults).Ok?
            && ChosenSearch(store, searchHistory, selectedSearches, selectedResults).value.results.None? ==>
              r == Err(missing)
  {
    var search :- ChosenSearch(store, searchHistory, selectedSearches, selectedResults);
    match search.results
    case None => Err(missing)
    case Some(results) => PyIndex(results, selectedResults[0])
  }

  /** `action_check_is_reservable`: whether the place explicitly accepts
      reservations; a search without results reads as an empty list. */
  function CheckIsReservable(store: Kv, searchHistory: Entries, selectedSearches: seq<int>,
                             selectedResults: seq<int>): (r: Result<seq<Event>>)
    ensures r.Ok? <==> ChosenPlace(store, searchHistory, selectedSearches, selectedResults, IndexError).Ok?
    ensures r.Ok? ==> var place := ChosenPlace(store, searchHistory, selectedSearches, selectedResults, IndexError).value;
                      r.value == [SlotSet("is_reservable", Bool(place.reservable == Some(true)))]
  {
    var place :- ChosenPlace(store, searchHistory, selectedSearches, selectedResults, IndexError);
    Ok([SlotSet("is_reservable", Bool(place.reservable == Some(true)))])
  }

  /** `action_state_not_reservable`: it finds the same place as the check,
      so it fails exactly when the check does. */
  function StateNotReservable(store: Kv, searchHistory: Entries, selectedSearches: seq<int>,
                              selectedResults: seq<int>): (r: Result<Reply>)
    ensures var place := ChosenPlace(store, searchHistory, selectedSearches, selectedResults, IndexError);
            && (place.Err? ==> r == place.PropagateFailure())
            && (place.Ok? && place.value.displayName.None? ==> r == Err(AttributeError))
            && (r.Ok? <==> place.Ok? && place.value.displayName.Some?)
    ensures r.Ok? ==> r.value == Reply([], ["utter_place_not_reservable"])
  {
    var place :- ChosenPlace(store, searchHistory, selectedSearches, selectedResults, IndexError);
    if place.displayName.None? then Err(AttributeError)
    else Ok(Reply([], ["utter_place_not_reservable"]))
  }

  /** `action_suggest_booking`: the suggestion is made once, so the flag that
      asks for it is cleared. */
  function SuggestBooking(): (r: Reply)
    ensures SlotSet("suggest_booking", Bool(false)) in r.events
    ensures r.responses == ["utter_suggest_booking"]
  {
    Reply([SlotSet("suggest_booking", Bool(false))], ["utter_suggest_booking"])
  }

  // ------------------------------------------------------------------------
  // Lifecycle
  // ------------------------------------------------------------------------

  /** `store.get_booking(history[selected_bookings[0]])`. */
  function BookingAt(store: Kv, history: Entries, selected: seq<int>): (r: Result<BookingData>)
    ensures r.Ok? <==> SelectedEntry(history, selected).Ok?
                       && Lookup(store.bookings, SelectedEntry(history, selected).value).Ok?
    ensures r.Ok? ==> r.value == store.bookings[SelectedEntry(history, selected).value.value]
    ensures r.Err? ==> (r.error == IndexError <==> SelectedEntry(history, selected).Err?)
    ensures r.Err? ==> r.error == IndexError || r.error == KeyError
  {
    var entry :- SelectedEntry(history, selected);
    Lookup(store.bookings, entry)
  }

  /** The form slots filled from a stored booking. */
  function LoadEvents(p: BookingParameters): (r: seq<Event>)
    ensures |r| == 6 && forall k :: 0 <= k < 6 ==> r[k].SlotSet?
  {
    [SlotSet(PlaceSlot, PlaceValue(p.place)),
     SlotSet(DateTimeSlot, DateTimeValue(p.date)),
     SlotSet(DateTimeErrorSlot, Null),
     SlotSet(PeopleSlot, Int(p.numPeople)),
     SlotSet(PeopleErrorSlot, Null),
     SlotSet(AuthorSlot, Text(p.author))]
  }

  /** `action_start_booking`. With an "inform_booking" intent the selected
      booking is loaded into the form; otherwise a placeholder entry is
      appended to the history and selected, the place comes from the selected
      search result, and the rest of the form is cleared. */
  function StartBooking(store: Kv, history: Entries, selectedBookings: seq<int>, m: Message,
                        searchHistory: Entries, selectedSearches: seq<int>, selectedResults: seq<int>): (r: Result<Reply>)
    ensures "inform_booking" in GetIntents(m) ==>
              var booking := BookingAt(store, history, selectedBookings);
              && (r.Ok? <==> booking.Ok?)
              && (r.Err? ==> r.error == booking.error)
              && (r.Ok? ==> r.value == Reply(LoadEvents(booking.value.parameters), []))
    ensures "inform_booking" !in GetIntents(m) ==>
              var place := ChosenPlace(store, searchHistory, selectedSearches, selectedResults, RuntimeError);
              && (place.Err? ==> r == place.PropagateFailure())
              && (place.Ok? && place.value.displayName.None? ==> r == Err(AttributeError))
              && (r.Ok? <==> place.Ok? && place.value.displayName.Some?)
              && (r.Ok? ==> && r.value.responses == ["utter_start_booking"]
                            && |r.value.events| == 3 + |FormSlots|
                            && r.value.events[0] == SlotSet(HistorySlot, KeyList(Open(history)))
                            && r.value.events[1] == SlotSet(SelectedSlot, Ints([|history|]))
                            && r.value.events[2] == SlotSet(PlaceSlot, PlaceValue(place.value))
                            && forall k :: 0 <= k < |FormSlots| ==> r.value.events[3 + k] == SlotSet(FormSlots[k], Null))
  {
    if "inform_booking" in GetIntents(m) then
      var booking :- BookingAt(store, history, selectedBookings);
      Ok(Reply(LoadEvents(booking.parameters), []))
    else
      var place :- ChosenPlace(store, searchHistory, selectedSearches, selectedResults, RuntimeError);
      if place.displayName.None? then Err(AttributeError)
      else
        Ok(Reply([SlotSet(HistorySlot, KeyList(Open(history))),
                  SlotSet(SelectedSlot, Ints([|history|])),
                  SlotSet(PlaceSlot, PlaceValue(place)),
                  SlotSet(DateTimeSlot, Null),
                  SlotSet(DateTimeErrorSlot, Null),
                  SlotSet(PeopleSlot, Null),
                  SlotSet(PeopleErrorSlot, Null),
                  SlotSet(AuthorSlot, Null)],
                 ["utter_start_booking"]))
  }

  /** One line of the confirmation of a modified booking. */
  datatype Change = PeopleCount(count: int) | DateAndTime(date: DateTime) | MadeBy(author: string)

  function ChangeRank(c: Change): nat {
    match c
    case PeopleCount(_) => 0
    case DateAndTime(_) => 1
    case MadeBy(_) => 2
  }

  /** The fields of the form that differ from the stored booking, in the
      order party size, date, author. */
  function Changes(stored: BookingParameters, count: int, date: DateTime, author: string): (r: seq<Change>)
    ensures PeopleCount(count) in r <==> stored.numPeople != count
    ensures DateAndTime(date) in r <==> stored.date != date
    ensures MadeBy(author) in r <==> stored.author != author
    ensures forall k :: 0 <= k < |r| ==> r[k] in {PeopleCount(count), DateAndTime(date), MadeBy(author)}
    ensures forall a, b :: 0 <= a < b < |r| ==> ChangeRank(r[a]) < ChangeRank(r[b])
  {
    (if stored.numPeople != count then [PeopleCount(count)] else [])
    + (if stored.date != date then [DateAndTime(date)] else [])
    + (if stored.author != author then [MadeBy(author)] else [])
  }

  function ChangeLine(c: Change, fmt: DateTime -> string): string {
    match c
    case PeopleCount(n) => "- number of people: " + IntToString(n) + "\n"
    case DateAndTime(d) => "- date and time: " + fmt(d) + "\n"
    case MadeBy(a) => "- made by: " + a + "\n"
  }

  function ChangeLines(cs: seq<Change>, fmt: DateTime -> string): string
    decreases |cs|
  {
    if |cs| == 0 then "" else ChangeLine(cs[0], fmt) + ChangeLines(cs[1..], fmt)
  }

  const ConfirmChangesHeader: string := "Do you confirm the following changes to your booking?\n"

  /** `action_confirm_booking`: a new booking is confirmed with the templated
      summary; a modified one lists only what changed. */
  function ConfirmBooking(date: DateTime, count: int, author: string, history: Entries, selected: seq<int>,
                          store: Kv, fmt: DateTime -> string): (r: Result<Reply>)
    ensures r.Ok? <==> SelectedEntry(history, selected).Ok?
                       && (SelectedEntry(history, selected).value.Some? ==> BookingAt(store, history, selected).Ok?)
    ensures r.Ok? && SelectedEntry(history, selected).value.None? ==> r.value == Reply([], ["utter_confirm_booking"])
    ensures r.Ok? && SelectedEntry(history, selected).value.Some? ==>
              var stored := BookingAt(store, history, selected).value.parameters;
              r.value == Reply([], [ConfirmChangesHeader + ChangeLines(Changes(stored, count, date, author), fmt)])
  {
    var entry :- SelectedEntry(history, selected);
    if entry.None? then Ok(Reply([], ["utter_confirm_booking"]))
    else
      var booking :- Lookup(store.bookings, entry);
      Ok(Reply([], [ConfirmChangesHeader + ChangeLines(Changes(booking.parameters, count, date, author), fmt)]))
  }

  /** `action_create_booking`: a modified booking is saved under its key; a
      new one is stored under a fresh key that replaces the placeholder. */
  function CreateBooking(place: Place, date: DateTime, count: int, author: string, history: Entries,
                         selected: seq<int>, store: Kv): (r: Result<(Reply, Kv)>)
    ensures r.Ok? <==> SelectedEntry(history, selected).Ok?
                       && (SelectedEntry(history, selected).value.Some? ==> BookingAt(store, history, selected).Ok?)
    ensures r.Ok? && SelectedEntry(history, selected).value.Some? ==>
              var key := SelectedEntry(history, selected).value.value;
              && r.value.0 == Reply([], ["utter_booking_modified"])
              && r.value.1.bookings == store.bookings[key := BookingData(BookingParameters(place, date, count, author))]
              && r.value.1.searches == store.searches
    ensures r.Ok? && SelectedEntry(history, selected).value.None? ==>
              var p := PyPosition(|history|, selected[0]);
              && r.value.0.responses == ["utter_booking_created"]
              && |r.value.0.events| == 2
              && r.value.0.events[1] == SlotSet(SelectedSlot, Ints([selected[0]]))
              && r.value.0.events[0].SlotSet? && r.value.0.events[0].slot == HistorySlot
              && r.value.0.events[0].value.KeyList?
              && var h := r.value.0.events[0].value.keys;
                 && |h| == |history| && h[p].Some? && h[p].value !in store.bookings
                 && (forall j :: 0 <= j < |history| && j != p ==> h[j] == history[j])
                 && r.value.1.bookings == store.bookings[h[p].value := BookingData(BookingParameters(place, date, count, author))]
                 && r.value.1.searches == store.searches
  {
    var booking := BookingData(BookingParameters(place, date, count, author));
    var idx :- PyIndex(selected, 0);
    var entry :- PyIndex(history, idx);
    match entry
    case Some(key) =>
      var store' :- UpdateBooking(store, key, booking);
      Ok((Reply([], ["utter_booking_modified"]), store'))
    case None =>
      var (store', key) := AddBooking(store, booking);
      var history' := Fill(history, idx, key).value;
      Ok((Reply([SlotSet(HistorySlot, KeyList(history')), SlotSet(SelectedSlot, Ints([idx]))],
                ["utter_booking_created"]), store'))
  }

  /** `action_create_booking` as Rasa runs it, inside the exception handler.
      Saving a modification utters "utter_booking_modified" before the store
      is updated, so a booking that has gone from the store still gets that
      message, followed by the handler's reply; the store is left as it was. */
  function RunCreateBooking(place: Place, date: DateTime, count: int, author: string, history: Entries,
                            selected: seq<int>, store: Kv, t: Tracker): (r: Result<(Reply, Kv)>)
    ensures var created := CreateBooking(place, date, count, author, history, selected, store);
            && (created.Ok? ==> r == created)
            && (created.Err? ==> (r.Ok? <==> StoredErrors(t.slots).Ok?))
            && (created.Err? && r.Ok? ==>
                  && r.value.1 == store
                  && r.value.0.events == HandleActionExceptions(t).value.events)
    ensures SelectedEntry(history, selected).Err? && r.Ok? ==>
              r.value.0.responses == HandleActionExceptions(t).value.responses
    ensures SelectedEntry(history, selected).Ok? && SelectedEntry(history, selected).value.Some?
            && BookingAt(store, history, selected).Err? && r.Ok? ==>
              r.value.0.responses == ["utter_booking_modified"] + HandleActionExceptions(t).value.responses
  {
    var created := CreateBooking(place, date, count, author, history, selected, store);
    match created
    case Ok(_) => created
    case Err(e) =>
      var uttered := if SelectedEntry(history, selected).Ok? then ["utter_booking_modified"] else [];
      var reply :- Guarded(Err(e), uttered, t);
      assert reply.responses == uttered + reply.responses[|uttered|..];
      Ok((reply, store))
  }

  /** A modified booking missing from the store, on the first failure outside
      a form: the user is told the booking was modified, then Rasa backs out
      and counts the error. */
  lemma LostBookingStillReportsModified(place: Place, date: DateTime, count: int, author: string,
                                        store: Kv, t: Tracker)
    requires "k" !in store.bookings && "num_internal_errors" !in t.slots && t.activeLoop.None?
    ensures RunCreateBooking(place, date, count, author, [Some("k")], [0], store, t)
            == Ok((Reply([SlotSet("num_internal_errors", Int(1)), ActionExecuted(ActionBack)],
                         ["utter_booking_modified"]), store))
  {
    assert SelectedEntry([Some("k")], [0]) == Ok(Some("k"));
    assert BookingAt(store, [Some("k")], [0]).Err?;
    assert StoredErrors(t.slots) == Ok(0);
    assert CreateBooking(place, date, count, author, [Some("k")], [0], store).Err?;
    var handled := Reply([SlotSet("num_internal_errors", Int(1)), ActionExecuted(ActionBack)], []);
    assert HandleActionExceptions(t) == Ok(handled);
    assert ["utter_booking_modified"] + handled.responses == ["utter_booking_modified"];
  }

  /** `action_cancel_booking`: a booking being created is dropped from the
      history; a modification is abandoned without changes. */
  function CancelBooking(history: Entries, selected: seq<int>): (r: Result<Reply>)
    ensures r.Ok? <==> SelectedEntry(history, selected).Ok?
    ensures r.Ok? && SelectedEntry(history, selected).value.Some? ==> r.value == Reply([], ["utter_cancel_modify_booking"])
    ensures r.Ok? && SelectedEntry(history, selected).value.None? ==>
              && Remove(history, selected[0]).Ok?
              && r.value == Reply([SlotSet(HistorySlot, KeyList(Remove(history, selected[0]).value)),
                                   SlotSet(SelectedSlot, Ints([]))],
                                  ["utter_cancel_booking"])
  {
    var idx :- PyIndex(selected, 0);
    var entry :- PyIndex(history, idx);
    if entry.None? then
      var history' := Remove(history, idx).value;
      Ok(Reply([SlotSet(HistorySlot, KeyList(history')), SlotSet(SelectedSlot, Ints([]))], ["utter_cancel_booking"]))
    else
      Ok(Reply([], ["utter_cancel_modify_booking"]))
  }

  /** `action_check_future_booking`: a booking still being created counts
      as in the future; a stored one is in the future when it is after now. */
  function CheckFutureBooking(history: Entries, selected: seq<int>, store: Kv, now: DateTime): (r: Result<seq<Event>>)
    ensures r.Ok? <==> SelectedEntry(history, selected).Ok?
                       && (SelectedEntry(history, selected).value.Some? ==> BookingAt(store, history, selected).Ok?)
    ensures r.Ok? ==> |r.value| == 1 && r.value[0].SlotSet? && r.value[0].slot == "is_future_booking"
    ensures r.Ok? && SelectedEntry(history, selected).value.None? ==> r.value[0].value == Bool(true)
    ensures r.Ok? && SelectedEntry(history, selected).value.Some? ==>
              r.value[0].value == Bool(Before(now, BookingAt(store, history, selected).value.parameters.date))
  {
    var entry :- SelectedEntry(history, selected);
    if entry.None? then Ok([SlotSet("is_future_booking", Bool(true))])
    else
      var booking :- Lookup(store.bookings, entry);
      Ok([SlotSet("is_future_booking", Bool(Before(now, booking.parameters.date)))])
  }

  /** The details text of a stored booking. */
  function Details(p: BookingParameters, fmt: DateTime -> string): (r: string)
    ensures |r| > 0
  {
    "Here are the details of your booking:\n"
    + "- place: " + SearchUtils.FormatOptional(p.place.shortAddress) + "\n"
    + "- date and time: " + fmt(p.date) + "\n"
    + "- number of people: " + IntToString(p.numPeople) + "\n"
    + "- made by: " + p.author + "\n"
  }

  /** `action_show_booking_details`. */
  function ShowBookingDetails(history: Entries, selected: seq<int>, store: Kv, fmt: DateTime -> string): (r: Result<Reply>)
    ensures r.Ok? <==> BookingAt(store, history, selected).Ok?
    ensures r.Err? ==> r.error == BookingAt(store, history, selected).error
    ensures r.Ok? ==> r.value == Reply([], [Details(BookingAt(store, history, selected).value.parameters, fmt)])
  {
    var booking :- BookingAt(store, history, selected);
    Ok(Reply([], [Details(booking.parameters, fmt)]))
  }

  /** A new booking, from the placeholder `StartBooking` opens: cancelling
      restores the history, confirming uses the template, it counts as in the
      future, and creating it stores the booking under a fresh key appended to
      the history, whose details then show what was entered. */
  lemma NewBookingLifecycle(store: Kv, history: Entries, p: BookingParameters, fmt: DateTime -> string, now: DateTime)
    ensures var extended := Open(history);
            var selected := [|history| as int];
            && CancelBooking(extended, selected)
               == Ok(Reply([SlotSet(HistorySlot, KeyList(history)), SlotSet(SelectedSlot, Ints([]))],
                           ["utter_cancel_booking"]))
            && ConfirmBooking(p.date, p.numPeople, p.author, extended, selected, store, fmt)
               == Ok(Reply([], ["utter_confirm_booking"]))
            && CheckFutureBooking(extended, selected, store, now) == Ok([SlotSet("is_future_booking", Bool(true))])
            && var (store', key) := AddBooking(store, BookingData(p));
               && CreateBooking(p.place, p.date, p.numPeople, p.author, extended, selected, store)
                  == Ok((Reply([SlotSet(HistorySlot, KeyList(history + [Some(key)])), SlotSet(SelectedSlot, Ints(selected))],
                               ["utter_booking_created"]), store'))
               && ShowBookingDetails(history + [Some(key)], selected, store', fmt)
                  == Ok(Reply([], [Details(p, fmt)]))
  {
    var key := FreshKey(store.bookings.Keys);
    OpenThenCancelOrFill(history, key);
    var extended := history + [Some(key)];
    assert extended[|history|] == Some(key);
  }

  /** Modifying a stored booking: the form is loaded with the stored values,
      confirming the untouched form lists no change, and saving it leaves the
      store as it was. */
  lemma ModifyLifecycle(slots: Slots, store: Kv, history: Entries, selected: seq<int>, m: Message,
                        searchHistory: Entries, selectedSearches: seq<int>, selectedResults: seq<int>,
                        fmt: DateTime -> string)
    requires "inform_booking" in GetIntents(m)
    requires BookingAt(store, history, selected).Ok?
    ensures var p := BookingAt(store, history, selected).value.parameters;
            var start := StartBooking(store, history, selected, m, searchHistory, selectedSearches, selectedResults);
            var after := ApplyEvents(slots, start.value.events);
            && start.Ok?
            && GetSlot(after, PlaceSlot, Null) == PlaceValue(p.place)
            && GetSlot(after, DateTimeSlot, Null) == DateTimeValue(p.date)
            && GetSlot(after, PeopleSlot, Null) == Int(p.numPeople)
            && GetSlot(after, AuthorSlot, Null) == Text(p.author)
            && ConfirmBooking(p.date, p.numPeople, p.author, history, selected, store, fmt)
               == Ok(Reply([], [ConfirmChangesHeader]))
            && CreateBooking(p.place, p.date, p.numPeople, p.author, history, selected, store)
               == Ok((Reply([], ["utter_booking_modified"]), store))
  {
    var p := BookingAt(store, history, selected).value.parameters;
    var events := LoadEvents(p);
    LastSlotSetWins(slots, events, 0);
    LastSlotSetWins(slots, events, 1);
    LastSlotSetWins(slots, events, 3);
    LastSlotSetWins(slots, events, 5);
    assert Changes(p, p.numPeople, p.date, p.author) == [];
    assert ConfirmChangesHeader + "" == ConfirmChangesHeader;
    var key := SelectedEntry(history, selected).value.value;
    assert store.bookings[key := BookingData(p)] == store.bookings;
  }
}
