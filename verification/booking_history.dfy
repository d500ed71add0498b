/** `actions/_booking_history.py`: picking bookings out of the history,
    deleting them and counting the selection. Duckling's time parser and
    `resolve_mentions` are outside the model; their results are inputs. */
module BookingHistory {
  import opened Wrappers
  import opened Strings
  import opened Seqs
  import opened Calendar
  import opened Places
  import opened Records
  import opened Keys
  import opened KvStore
  import opened RasaUtils
  import opened History

  // ------------------------------------------------------------------------
  // Bookings at a parsed time
  // ------------------------------------------------------------------------

  /** Whether a booking date falls in a parsed time. An instant matches on the
      fields its grain names; the week grain compares the ISO 8601 week number
      (section 4.1.4 of ISO 8601:2004), given here as `isoWeek`. An interval
      is closed at both ends, and one without an end is the single instant at
      its start. */
  predicate InTime(d: DateTime, t: Time, isoWeek: Date -> int) {
    match t
    case At(Instant(start, grain)) =>
      (match grain
       case Year => d.date.year == start.date.year
       case Month => d.date.year == start.date.year && d.date.month == start.date.month
       case Week => d.date.year == start.date.year && isoWeek(d.date) == isoWeek(start.date)
       case Day => d.date == start.date
       case _ => d == start)
    case Between(start, end) =>
      var last := if end.Some? then end.value.value else start.value;
      AtOrBefore(start.value, d) && AtOrBefore(d, last)
  }

  /** `_get_bookings`: the positions of the bookings that fall in `t`. */
  function GetBookings(bookings: seq<BookingData>, t: Time, isoWeek: Date -> int): (r: seq<int>)
    ensures Increasing(r)
    ensures forall k :: 0 <= k < |r| ==> 0 <= r[k] < |bookings|
    ensures forall i :: i in r <==> 0 <= i < |bookings| && InTime(bookings[i].parameters.date, t, isoWeek)
    decreases |bookings|
  {
    if |bookings| == 0 then []
    else
      var n := |bookings| - 1;
      var init := bookings[..n];
      var rest := GetBookings(init, t, isoWeek);
      assert forall i :: 0 <= i < n ==> init[i] == bookings[i];
      if InTime(bookings[n].parameters.date, t, isoWeek) then rest + [n] else rest
  }

  /** Two times that pick the same bookings give the same positions. */
  lemma {:induction false} GetBookingsAgree(bookings: seq<BookingData>, t: Time, u: Time, isoWeek: Date -> int)
    requires forall i :: 0 <= i < |bookings| ==>
               (InTime(bookings[i].parameters.date, t, isoWeek) <==> InTime(bookings[i].parameters.date, u, isoWeek))
    ensures GetBookings(bookings, t, isoWeek) == GetBookings(bookings, u, isoWeek)
    decreases |bookings|
  {
    if |bookings| > 0 {
      var init := bookings[..|bookings| - 1];
      assert forall i :: 0 <= i < |init| ==> init[i] == bookings[i];
      GetBookingsAgree(init, t, u, isoWeek);
    }
  }

  /** An interval without an end selects what the exact instant at its start
      selects: the bookings at that very moment. */
  lemma OpenIntervalIsItsStart(bookings: seq<BookingData>, start: Instant, isoWeek: Date -> int)
    ensures GetBookings(bookings, Between(start, None), isoWeek)
            == GetBookings(bookings, At(Instant(start.value, Second)), isoWeek)
    ensures forall i :: i in GetBookings(bookings, Between(start, None), isoWeek) <==>
              0 <= i < |bookings| && bookings[i].parameters.date == start.value
  {
    forall i | 0 <= i < |bookings|
      ensures InTime(bookings[i].parameters.date, Between(start, None), isoWeek)
              <==> bookings[i].parameters.date == start.value
    {
      var d := bookings[i].parameters.date;
      if AtOrBefore(start.value, d) && AtOrBefore(d, start.value) {
        BeforeIsAsymmetric(start.value, d);
      }
    }
    GetBookingsAgree(bookings, Between(start, None), At(Instant(start.value, Second)), isoWeek);
  }

  lemma BeforeIsAsymmetric(a: DateTime, b: DateTime)
    ensures !(Before(a, b) && Before(b, a))
  {
  }

  /** Around the same instant, second, minute and hour select the same
      bookings, a day lies within its week and its month, and a week or a
      month within its year. A week can cross a month boundary, so week and
      month do not nest in either direction. */
  lemma GrainsNest(bookings: seq<BookingData>, start: DateTime, isoWeek: Date -> int)
    ensures var sel := (g: Grain) => GetBookings(bookings, At(Instant(start, g)), isoWeek);
            && (forall i :: i in sel(Second) ==> i in sel(Day))
            && (forall i :: i in sel(Day) ==> i in sel(Week) && i in sel(Month))
            && (forall i :: i in sel(Week) ==> i in sel(Year))
            && (forall i :: i in sel(Month) ==> i in sel(Year))
            && sel(Second) == sel(Minute) == sel(Hour)
  {
    GetBookingsAgree(bookings, At(Instant(start, Second)), At(Instant(start, Minute)), isoWeek);
    GetBookingsAgree(bookings, At(Instant(start, Second)), At(Instant(start, Hour)), isoWeek);
  }

  /** The positions every parsed time selects, one time after the other. */
  function GetBookingsAll(bookings: seq<BookingData>, times: seq<Time>, isoWeek: Date -> int): (r: seq<int>)
    ensures forall i :: i in r <==>
              (0 <= i < |bookings| && exists j :: 0 <= j < |times| && InTime(bookings[i].parameters.date, times[j], isoWeek))
    decreases |times|
  {
    if |times| == 0 then []
    else
      var rest := GetBookingsAll(bookings, times[1..], isoWeek);
      assert forall j :: 1 <= j < |times| ==> times[j] == times[1..][j - 1];
      GetBookings(bookings, times[0], isoWeek) + rest
  }

  // ------------------------------------------------------------------------
  // The actions
  // ------------------------------------------------------------------------

  /** Every value of `values` run through the time parser, results in order. */
  function ParseAll(values: seq<string>, parse: string -> seq<Time>): (r: seq<Time>)
    ensures |values| == 0 ==> r == []
    decreases |values|
  {
    if |values| == 0 then [] else parse(values[0]) + ParseAll(values[1..], parse)
  }

  /** `[store.get_booking(key) for key in history]`: a placeholder or an
      unknown key raises KeyError. */
  function LookupBookings(store: Kv, history: Entries): (r: Result<seq<BookingData>>)
    ensures r.Ok? <==> forall k :: 0 <= k < |history| ==> history[k].Some? && history[k].value in store.bookings
    ensures r.Err? ==> r.error == KeyError
    ensures r.Ok? ==> |r.value| == |history|
                      && forall k :: 0 <= k < |history| ==> r.value[k] == store.bookings[history[k].value]
    decreases |history|
  {
    if |history| == 0 then Ok([])
    else
      var rest := LookupBookings(store, history[1..]);
      assert forall k :: 1 <= k < |history| ==> history[k] == history[1..][k - 1];
      match history[0]
      case None => Err(KeyError)
      case Some(key) =>
        if key !in store.bookings then Err(KeyError)
        else if rest.Err? then Err(KeyError)
        else Ok([store.bookings[key]] + rest.value)
  }

  function Selection(selected: seq<int>): (r: seq<Event>)
    ensures |r| == 2 && r[0].SlotSet? && r[0].slot == "selected_bookings"
  {
    [SlotSet("selected_bookings", Ints(selected)), SlotSet("selected_bookings_error", Null)]
  }

  function SelectionError(error: string): (r: seq<Event>)
    ensures |r| == 2 && r[0] == SlotSet("selected_bookings", Null)
  {
    [SlotSet("selected_bookings", Null), SlotSet("selected_bookings_error", Text(error))]
  }

  /** Whether a message without references asks for the whole history. */
  predicate AsksForEverything(m: Message) {
    "show_bookings" in GetIntents(m) || Contains(m.text, "history") || Contains(m.text, "activity")
  }

  /** `SetSelectedBookings`. `resolution` is what `resolve_mentions` returns
      for the message, `parse` stands for Duckling's time parser and the
      previous selection is only read by `resolve_mentions`. The source turns
      the selection into `list(set(...))` when times were given; the model
      lists those positions in ascending order. */
  function SetSelectedBookings(history: Entries, m: Message, resolution: Resolution, store: Kv,
                               parse: string -> seq<Time>, isoWeek: Date -> int): (r: Result<Reply>)
    ensures |history| == 0 ==> r == Ok(Reply(SelectionError("no_bookings"), []))
    ensures |history| == 1 && |EntityValues(m, "mention")| == 0 ==> r == Ok(Reply(Selection([0]), []))
    ensures |history| >= 2 && |EntityValues(m, "mention")| == 0 ==>
              r == Ok(Reply(if AsksForEverything(m) then Selection(Range(|history|))
                            else SelectionError("no_selection"), []))
    ensures |history| > 0 && |EntityValues(m, "mention")| > 0 && |resolution.errors| > 0 ==>
              r == Ok(Reply([SlotSet("selected_bookings_error", Text("invalid_selection"))],
                            [Apology(resolution.errors)]))
    ensures |history| > 0 && |EntityValues(m, "mention")| > 0 && |resolution.errors| == 0
            && |ParseAll(EntityValues(m, "datetime"), parse)| == 0 ==>
              r == Ok(Reply(if |resolution.selected| == 0 then SelectionError("no_bookings_found")
                            else Selection(resolution.selected), []))
    ensures r.Err? ==> r.error == KeyError && LookupBookings(store, history).Err?
  {
    if |history| == 0 then Ok(Reply(SelectionError("no_bookings"), []))
    else if |EntityValues(m, "mention")| == 0 then
      if |history| == 1 then Ok(Reply(Selection([0]), []))
      else if AsksForEverything(m) then Ok(Reply(Selection(Range(|history|)), []))
      else Ok(Reply(SelectionError("no_selection"), []))
    else if |resolution.errors| > 0 then
      Ok(Reply([SlotSet("selected_bookings_error", Text("invalid_selection"))], [Apology(resolution.errors)]))
    else
      var times := ParseAll(EntityValues(m, "datetime"), parse);
      var selected :-
        if |times| == 0 then Ok(resolution.selected)
        else
          var bookings :- LookupBookings(store, history);
          Ok(SortedUnique(resolution.selected + GetBookingsAll(bookings, times, isoWeek)));
      if |selected| == 0 then Ok(Reply(SelectionError("no_bookings_found"), []))
      else Ok(Reply(Selection(selected), []))
  }

  /** When times are given, the selection holds each referred position and
      each position of a booking in one of those times (`GetBookingsAll`),
      once each, in ascending order; when there are none of either the error
      is "no_bookings_found". */
  lemma SelectionByTime(history: Entries, m: Message, resolution: Resolution, store: Kv,
                        parse: string -> seq<Time>, isoWeek: Date -> int)
    requires |history| > 0 && |EntityValues(m, "mention")| > 0 && |resolution.errors| == 0
    requires |ParseAll(EntityValues(m, "datetime"), parse)| > 0
    requires LookupBookings(store, history).Ok?
    ensures var r := SetSelectedBookings(history, m, resolution, store, parse, isoWeek);
            var found := GetBookingsAll(LookupBookings(store, history).value,
                                        ParseAll(EntityValues(m, "datetime"), parse), isoWeek);
            && r.Ok? && |r.value.events| == 2 && r.value.responses == []
            && (r.value.events[0] == SlotSet("selected_bookings", Null)
                <==> |resolution.selected| == 0 && |found| == 0)
            && (r.value.events[0] != SlotSet("selected_bookings", Null) ==>
                  && r.value.events[0].value.Ints?
                  && Increasing(r.value.events[0].value.ints)
                  && forall i :: i in r.value.events[0].value.ints <==> i in resolution.selected || i in found)
  {
    var times := ParseAll(EntityValues(m, "datetime"), parse);
    var bookings := LookupBookings(store, history).value;
    var found := GetBookingsAll(bookings, times, isoWeek);
    var selected := SortedUnique(resolution.selected + found);
    assert SetSelectedBookings(history, m, resolution, store, parse, isoWeek)
           == Ok(Reply(if |selected| == 0 then SelectionError("no_bookings_found") else Selection(selected), []));
    assert forall i :: i in selected <==> i in resolution.selected || i in found;
    if |selected| > 0 {
      assert selected[0] in resolution.selected || selected[0] in found;
    }
  }

  /** `DeleteSelectedBookings`: the unselected entries stay, in order, and the
      selection is cleared. */
  function DeleteSelectedBookings(history: Entries, selected: seq<int>): (r: Reply)
    ensures |r.events| == 2 && r.events[1] == SlotSet("selected_bookings", Null)
    ensures r.events[0].SlotSet? && r.events[0].slot == "booking_history" && r.events[0].value.KeyList?
    ensures var kept := r.events[0].value.keys;
            var ps := KeptPositions(|history|, AsSet(selected));
            && |kept| == |ps|
            && (forall k :: 0 <= k < |kept| ==> kept[k] == history[ps[k]] && ps[k] !in selected)
            && (forall i :: 0 <= i < |history| && i !in selected ==> i in ps)
    ensures r.responses == ["utter_deleted_bookings"]
  {
    KeepIsExact(history, selected);
    Reply([SlotSet("booking_history", KeyList(Keep(history, selected))), SlotSet("selected_bookings", Null)],
          ["utter_deleted_bookings"])
  }

  /** Selecting the whole history and deleting it leaves an empty history;
      deleting with nothing selected leaves it as it was. */
  lemma SelectAllThenDelete(history: Entries, m: Message, resolution: Resolution, store: Kv,
                            parse: string -> seq<Time>, isoWeek: Date -> int)
    requires |history| >= 2 && |EntityValues(m, "mention")| == 0 && AsksForEverything(m)
    ensures var r := SetSelectedBookings(history, m, resolution, store, parse, isoWeek);
            && r.Ok? && r.value.events[0].value.Ints?
            && DeleteSelectedBookings(history, r.value.events[0].value.ints).events[0]
               == SlotSet("booking_history", KeyList([]))
    ensures DeleteSelectedBookings(history, []).events[0] == SlotSet("booking_history", KeyList(history))
  {
    KeepExtremes(history);
  }

  /** `CountSelectedBookings`. */
  function CountSelectedBookings(selected: seq<int>): (r: seq<Event>)
    ensures |selected| == 0 <==> r == [SlotSet("selected_bookings_count", Text("zero"))]
    ensures |selected| == 1 <==> r == [SlotSet("selected_bookings_count", Text("one"))]
    ensures |selected| >= 2 <==> r == [SlotSet("selected_bookings_count", Text("multiple"))]
  {
    [SlotSet("selected_bookings_count", Text(CountLabel(|selected|)))]
  }
}
