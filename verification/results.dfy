/** The actions of `actions/_results.py` on the results of the selected
    search: choosing which results the user refers to, listing them, and
    counting them. */
module Results {
  import opened Wrappers
  import opened Strings
  import opened Seqs
  import opened Places
  import opened Records
  import opened RasaUtils
  import opened History
  import SearchUtils

  const SelectedSlot: string := "selected_results"
  const ErrorSlot: string := "selected_results_error"
  const CountSlot: string := "selected_results_count"

  /** `search.results or []` for the search the first selected position
      points at. */
  function SelectedSearchResults(store: Kv, history: Entries, selectedSearches: seq<int>): (r: Result<seq<Place>>)
    ensures r.Ok? <==> && SelectedEntry(history, selectedSearches).Ok?
                       && Lookup(store.searches, SelectedEntry(history, selectedSearches).value).Ok?
    ensures r.Ok? ==> r.value == store.searches[SelectedEntry(history, selectedSearches).value.value].results.GetOr([])
    ensures r.Err? ==> r.error == IndexError || r.error == KeyError
  {
    var entry :- SelectedEntry(history, selectedSearches);
    var search :- Lookup(store.searches, entry);
    Ok(search.results.GetOr([]))
  }

  /** Whether some intent asks about the selected results. */
  predicate AsksAbout(intents: seq<string>) {
    exists k :: 0 <= k < |intents| && StartsWith(intents[k], "ask_")
  }

  /** `action_set_selected_results`, once the results are known. Without
      mentions, a lone result is selected, "show_results" selects them all, a
      question keeps the previous selection and anything else is an error.
      With mentions, the resolution of them decides: unresolved references
      are apologised for and only the error is set. */
  function SelectResults(results: seq<Place>, m: Message, previousSelected: Value, previousError: Value,
                         resolution: Resolution): (r: Reply)
    ensures |results| == 0 ==> r == Reply([SlotSet(SelectedSlot, Null), SlotSet(ErrorSlot, Text("no_results"))], [])
    ensures |results| > 0 && |EntityValues(m, "mention")| == 0 ==>
              && r.responses == []
              && |r.events| == 2 && r.events[0].SlotSet? && r.events[0].slot == SelectedSlot
              && r.events[1].SlotSet? && r.events[1].slot == ErrorSlot
              && (|results| == 1 ==> r.events[0].value == Ints([0]) && r.events[1].value == Null)
              && (|results| > 1 && "show_results" in GetIntents(m) ==>
                    r.events[0].value == Ints(Range(|results|)) && r.events[1].value == Null)
              && (|results| > 1 && "show_results" !in GetIntents(m) && AsksAbout(GetIntents(m)) ==>
                    r.events[0].value == previousSelected && r.events[1].value == previousError)
              && (|results| > 1 && "show_results" !in GetIntents(m) && !AsksAbout(GetIntents(m)) ==>
                    r.events[0].value == Null && r.events[1].value == Text("no_selection"))
    ensures |results| > 0 && |EntityValues(m, "mention")| > 0 ==>
              && (|resolution.errors| > 0 ==>
                    r == Reply([SlotSet(ErrorSlot, Text("invalid_selection"))], [Apology(resolution.errors)]))
              && (|resolution.errors| == 0 && |resolution.selected| == 0 ==>
                    r == Reply([SlotSet(SelectedSlot, Null), SlotSet(ErrorSlot, Text("no_results_found"))], []))
              && (|resolution.errors| == 0 && |resolution.selected| > 0 ==>
                    r == Reply([SlotSet(SelectedSlot, Ints(resolution.selected)), SlotSet(ErrorSlot, Null)], []))
  {
    if |results| == 0 then
      Reply([SlotSet(SelectedSlot, Null), SlotSet(ErrorSlot, Text("no_results"))], [])
    else if |EntityValues(m, "mention")| == 0 then
      var intents := GetIntents(m);
      if |results| == 1 then Reply([SlotSet(SelectedSlot, Ints([0])), SlotSet(ErrorSlot, Null)], [])
      else if "show_results" in intents then
        Reply([SlotSet(SelectedSlot, Ints(Range(|results|))), SlotSet(ErrorSlot, Null)], [])
      else if AsksAbout(intents) then
        Reply([SlotSet(SelectedSlot, previousSelected), SlotSet(ErrorSlot, previousError)], [])
      else
        Reply([SlotSet(SelectedSlot, Null), SlotSet(ErrorSlot, Text("no_selection"))], [])
    else if |resolution.errors| > 0 then
      Reply([SlotSet(ErrorSlot, Text("invalid_selection"))], [Apology(resolution.errors)])
    else if |resolution.selected| == 0 then
      Reply([SlotSet(SelectedSlot, Null), SlotSet(ErrorSlot, Text("no_results_found"))], [])
    else
      Reply([SlotSet(SelectedSlot, Ints(resolution.selected)), SlotSet(ErrorSlot, Null)], [])
  }

  /** `action_set_selected_results`. The search is looked up before anything
      else, so a missing search fails whatever the message. */
  function SetSelectedResults(store: Kv, history: Entries, selectedSearches: seq<int>, m: Message,
                              previousSelected: Value, previousError: Value, resolution: Resolution): (r: Result<Reply>)
    ensures r.Ok? <==> SelectedSearchResults(store, history, selectedSearches).Ok?
    ensures r.Err? ==> r.error == SelectedSearchResults(store, history, selectedSearches).error
    ensures r.Ok? ==> r.value == SelectResults(SelectedSearchResults(store, history, selectedSearches).value,
                                               m, previousSelected, previousError, resolution)
  {
    var results :- SelectedSearchResults(store, history, selectedSearches);
    Ok(SelectResults(results, m, previousSelected, previousError, resolution))
  }

  /** A question about the results leaves both selection slots as they were. */
  lemma QuestionKeepsSelection(slots: Slots, results: seq<Place>, m: Message, resolution: Resolution)
    requires |results| > 1 && |EntityValues(m, "mention")| == 0
    requires "show_results" !in GetIntents(m) && AsksAbout(GetIntents(m))
    ensures var r := SelectResults(results, m, GetSlot(slots, SelectedSlot, Null), GetSlot(slots, ErrorSlot, Null), resolution);
            var after := ApplyEvents(slots, r.events);
            && GetSlot(after, SelectedSlot, Null) == GetSlot(slots, SelectedSlot, Null)
            && GetSlot(after, ErrorSlot, Null) == GetSlot(slots, ErrorSlot, Null)
  {
    var r := SelectResults(results, m, GetSlot(slots, SelectedSlot, Null), GetSlot(slots, ErrorSlot, Null), resolution);
    GetSlotAfterSet(slots, [r.events[0]], ErrorSlot, r.events[1].value, Null);
    assert r.events == [r.events[0]] + [SlotSet(ErrorSlot, r.events[1].value)];
    OtherSlotsAfterSet(slots, [r.events[0]], ErrorSlot, SelectedSlot, r.events[1].value, Null);
    GetSlotAfterSet(slots, [], SelectedSlot, r.events[0].value, Null);
    assert [r.events[0]] == [] + [SlotSet(SelectedSlot, r.events[0].value)];
  }

  /** An unresolved reference keeps the previous selection. */
  lemma InvalidSelectionKeepsSelection(slots: Slots, results: seq<Place>, m: Message, previousSelected: Value,
                                       previousError: Value, resolution: Resolution)
    requires |results| > 0 && |EntityValues(m, "mention")| > 0 && |resolution.errors| > 0
    ensures var r := SelectResults(results, m, previousSelected, previousError, resolution);
            GetSlot(ApplyEvents(slots, r.events), SelectedSlot, Null) == GetSlot(slots, SelectedSlot, Null)
  {
    var r := SelectResults(results, m, previousSelected, previousError, resolution);
    OtherSlotsAfterSet(slots, [], ErrorSlot, SelectedSlot, Text("invalid_selection"), Null);
    assert r.events == [] + [SlotSet(ErrorSlot, Text("invalid_selection"))];
  }

  /** `action_show_selected_results`, once the results are known. A single
      selection shows the details of that place, which the `details`
      parameter renders; selecting as many positions as there are results
      lists them all; otherwise the selected ones are listed in selection
      order. A single reservable place is offered for booking when a booking
      is to be suggested. */
  function ShowResults(results: seq<Place>, selected: seq<int>, suggest: Value, details: Place -> string): (r: Result<Reply>)
    ensures |selected| == 1 ==>
              && (r.Ok? <==> PyIndex(results, selected[0]).Ok? && PyIndex(results, selected[0]).value.displayName.Some?)
              && (r.Err? ==> (r.error == IndexError <==> PyIndex(results, selected[0]).Err?))
              && (r.Err? ==> r.error == IndexError || r.error == RuntimeError)
              && (r.Ok? ==> var place := PyIndex(results, selected[0]).value;
                            && r.value.responses == [details(place)]
                            && (r.value.events == [FollowupAction("action_suggest_booking")]
                                <==> IsTruthy(suggest) && place.reservable == Some(true))
                            && (r.value.events != [FollowupAction("action_suggest_booking")] ==> r.value.events == []))
    ensures |selected| != 1 && |selected| == |results| ==>
              r == Ok(Reply([], ["Here all the results:\n" + SearchUtils.EnumeratedLines(results, 1)]))
    ensures |selected| != 1 && |selected| != |results| ==>
              && (r.Ok? <==> SearchUtils.SelectedLines(results, selected).Ok?)
              && (r.Err? ==> r.error == IndexError)
              && (r.Ok? ==> r.value == Reply([], ["Here are the selected results:\n" + SearchUtils.SelectedLines(results, selected).value]))
  {
    if |selected| == 1 then
      var place :- PyIndex(results, selected[0]);
      if place.displayName.None? then Err(RuntimeError)
      else
        var events := if IsTruthy(suggest) && place.reservable == Some(true) then [FollowupAction("action_suggest_booking")] else [];
        Ok(Reply(events, [details(place)]))
    else if |selected| == |results| then
      Ok(Reply([], ["Here all the results:\n" + SearchUtils.EnumeratedLines(results, 1)]))
    else
      var lines :- SearchUtils.SelectedLines(results, selected);
      Ok(Reply([], ["Here are the selected results:\n" + lines]))
  }

  /** `action_show_selected_results`. */
  function ShowSelectedResults(store: Kv, history: Entries, selectedSearches: Option<seq<int>>, selected: seq<int>,
                               suggest: Value, details: Place -> string): (r: Result<Reply>)
    ensures selectedSearches.None? ==> r == Err(TypeError)
    ensures selectedSearches.Some? && SelectedSearchResults(store, history, selectedSearches.value).Err? ==>
              r == Err(SelectedSearchResults(store, history, selectedSearches.value).error)
    ensures selectedSearches.Some? && SelectedSearchResults(store, history, selectedSearches.value).Ok? ==>
              r == ShowResults(SelectedSearchResults(store, history, selectedSearches.value).value, selected, suggest, details)
  {
    if selectedSearches.None? then Err(TypeError)
    else
      var results :- SelectedSearchResults(store, history, selectedSearches.value);
      ShowResults(results, selected, suggest, details)
  }

  /** Asking to see several results and then showing the selection lists
      every result, numbered from 1, exactly as listing the chosen positions
      one by one would. */
  lemma ShowingAllResults(slots: Slots, results: seq<Place>, m: Message, resolution: Resolution,
                          suggest: Value, details: Place -> string)
    requires |results| > 1 && |EntityValues(m, "mention")| == 0 && "show_results" in GetIntents(m)
    ensures var r := SelectResults(results, m, Null, Null, resolution);
            var after := ApplyEvents(slots, r.events);
            && GetSlot(after, SelectedSlot, Null) == Ints(Range(|results|))
            && ShowResults(results, Range(|results|), suggest, details)
               == Ok(Reply([], ["Here all the results:\n" + SearchUtils.SelectedLines(results, Range(|results|)).value]))
  {
    var r := SelectResults(results, m, Null, Null, resolution);
    LastSlotSetWins(slots, r.events, 0);
    SearchUtils.SelectingAllIsEnumerating(results);
  }

  /** `action_count_selected_results`. */
  function CountSelectedResults(selected: seq<int>): (r: seq<Event>)
    ensures r == [SlotSet(CountSlot, Text(CountLabel(|selected|)))]
  {
    [SlotSet(CountSlot, Text(CountLabel(|selected|)))]
  }

  /** The count after a selection agrees with the selection: one when a lone
      result was picked, and as many as the results when all were shown. */
  lemma CountAfterSelection(results: seq<Place>, m: Message, resolution: Resolution)
    requires |results| > 0 && |EntityValues(m, "mention")| == 0
    requires |results| == 1 || "show_results" in GetIntents(m)
    ensures var r := SelectResults(results, m, Null, Null, resolution);
            && r.events[0].value.Ints?
            && CountSelectedResults(r.events[0].value.ints)
               == [SlotSet(CountSlot, Text(if |results| == 1 then "one" else "multiple"))]
  {
  }
}
