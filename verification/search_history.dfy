/** The search-history actions of `actions/_search_history.py`. They predate
    the typed store: the searches live in the untyped `Db` as records whose
    "parameters" field holds the search parameters, opaque here as `P`.
    Titles come from a `title` parameter standing for `get_search_title`. */
module SearchHistory {
  import opened Wrappers
  import opened Keys
  import opened Seqs
  import opened Db
  import opened RasaUtils
  import opened History

  const HistorySlot: string := "search_history"
  const SelectedSlot: string := "selected_searches"
  const ErrorSlot: string := "selected_searches_error"

  /** A stored search: `{"parameters": ...}`, where the field may be absent. */
  type Record<P> = map<string, P>

  /** `store[key]["parameters"]` for a history entry. */
  function ParametersOf<P>(store: Db<Record<P>>, entry: Option<Key>): (r: Result<P>)
    ensures r.Ok? <==> entry.Some? && entry.value in store.entries && "parameters" in store.entries[entry.value]
    ensures r.Ok? ==> r.value == store.entries[entry.value]["parameters"]
    ensures r.Err? ==> r.error == KeyError
  {
    if entry.None? then Err(KeyError)
    else
      var record :- GetItem(store, entry.value);
      if "parameters" in record then Ok(record["parameters"]) else Err(KeyError)
  }

  /** The numbered lines of the history, one per entry, from `first`. */
  function HistoryLines<P>(store: Db<Record<P>>, history: Entries, first: int, title: P -> string): (r: Result<string>)
    ensures r.Ok? <==> forall k :: 0 <= k < |history| ==> ParametersOf(store, history[k]).Ok?
    ensures r.Err? ==> r.error == KeyError
    decreases |history|
  {
    if |history| == 0 then Ok("")
    else
      var parameters :- ParametersOf(store, history[0]);
      var rest :- HistoryLines(store, history[1..], first + 1, title);
      assert forall k :: 1 <= k < |history| ==> history[k] == history[1..][k - 1];
      Ok(Line(first, title(parameters)) + rest)
  }

  /** `f"{idx + 1}. {name}\n"`. */
  function Line(n: int, name: string): string {
    Strings.IntToString(n) + ". " + name + "\n"
  }

  /** `action_show_search_history`: lists every search and clears the
      selection. The history slot is read without a default, so an unset
      history fails. */
  function ShowSearchHistory<P>(store: Db<Record<P>>, history: Option<Entries>, title: P -> string): (r: Result<Reply>)
    ensures history.None? ==> r == Err(TypeError)
    ensures history.Some? ==> (r.Ok? <==> HistoryLines(store, history.value, 1, title).Ok?)
    ensures history.Some? && r.Err? ==> r.error == KeyError
    ensures r.Ok? ==> r.value == Reply([SlotSet(SelectedSlot, Null)],
                                       ["Here is your search activity:\n" + HistoryLines(store, history.value, 1, title).value])
  {
    if history.None? then Err(TypeError)
    else
      var lines :- HistoryLines(store, history.value, 1, title);
      Ok(Reply([SlotSet(SelectedSlot, Null)], ["Here is your search activity:\n" + lines]))
  }

  /** `action_clear_search_history`. */
  function ClearSearchHistory(): (r: seq<Event>)
    ensures r == [SlotSet(HistorySlot, KeyList([])), SlotSet(SelectedSlot, Null)]
  {
    [SlotSet(HistorySlot, KeyList([])), SlotSet(SelectedSlot, Null)]
  }

  /** After clearing, the history shows no search at all. */
  lemma ClearedHistoryIsEmpty<P>(slots: Slots, store: Db<Record<P>>, title: P -> string)
    ensures var after := ApplyEvents(slots, ClearSearchHistory());
            && GetSlot(after, HistorySlot, Null) == KeyList([])
            && GetSlot(after, SelectedSlot, Null) == Null
            && ShowSearchHistory(store, Some(GetSlot(after, HistorySlot, Null).keys), title)
               == Ok(Reply([SlotSet(SelectedSlot, Null)], ["Here is your search activity:\n"]))
  {
    var events := ClearSearchHistory();
    LastSlotSetWins(slots, events, 0);
    GetSlotAfterSet(slots, [events[0]], SelectedSlot, Null, Null);
    assert events == [events[0]] + [SlotSet(SelectedSlot, Null)];
    assert "Here is your search activity:\n" + "" == "Here is your search activity:\n";
  }

  /** `action_start_search` of this module: stores a search with empty
      parameters under a fresh key, appends the key and selects it. */
  function StartSearch<P>(store: Db<Record<P>>, history: Entries, emptyParameters: P): (r: (Reply, Db<Record<P>>))
    ensures var key := Add(store, map["parameters" := emptyParameters]).1;
            && key !in store.entries
            && r.1.entries == store.entries[key := map["parameters" := emptyParameters]]
            && r.0.responses == ["utter_started_search"]
            && r.0.events == [SlotSet(HistorySlot, KeyList(history + [Some(key)])),
                              SlotSet(SelectedSlot, Ints([|history|])),
                              SlotSet("invalid_location", Null),
                              SlotSet("invalid_location_reasons", Null),
                              SlotSet("invalid_place_type", Null)]
  {
    var (store', key) := Add(store, map["parameters" := emptyParameters]);
    var history' := history + [Some(key)];
    (Reply([SlotSet(HistorySlot, KeyList(history')),
            SlotSet(SelectedSlot, Ints([|history'| - 1])),
            SlotSet("invalid_location", Null),
            SlotSet("invalid_location_reasons", Null),
            SlotSet("invalid_place_type", Null)],
           ["utter_started_search"]), store')
  }

  /** The selection a new search makes points at the new search. */
  lemma StartedSearchIsSelected<P>(store: Db<Record<P>>, history: Entries, emptyParameters: P)
    ensures var (reply, store') := StartSearch(store, history, emptyParameters);
            var history' := reply.events[0].value.keys;
            && SelectedEntry(history', reply.events[1].value.ints).Ok?
            && var entry := SelectedEntry(history', reply.events[1].value.ints).value;
               ParametersOf(store', entry) == Ok(emptyParameters)
  {
  }

  /** Adding a search extends a listable history by one more line, for the
      new search, numbered after the others. */
  lemma {:induction false} StartSearchExtendsListing<P>(store: Db<Record<P>>, history: Entries, first: int,
                                                        emptyParameters: P, title: P -> string)
    requires HistoryLines(store, history, first, title).Ok?
    ensures var (reply, store') := StartSearch(store, history, emptyParameters);
            HistoryLines(store', reply.events[0].value.keys, first, title)
            == Ok(HistoryLines(store, history, first, title).value
                  + Line(first + |history|, title(emptyParameters)))
    decreases |history|
  {
    var (reply, store') := StartSearch(store, history, emptyParameters);
    var key := Add(store, map["parameters" := emptyParameters]).1;
    var history' := history + [Some(key)];
    assert reply.events[0].value.keys == history';
    KeepsListing(store, store', history, first, title);
    LinesOfAppend(store', history, Some(key), first, title);
  }

  /** A store that only gains entries lists an old history the same way. */
  lemma {:induction false} KeepsListing<P>(store: Db<Record<P>>, store': Db<Record<P>>, history: Entries,
                                           first: int, title: P -> string)
    requires forall k :: k in store.entries ==> k in store'.entries && store'.entries[k] == store.entries[k]
    requires HistoryLines(store, history, first, title).Ok?
    ensures HistoryLines(store', history, first, title) == HistoryLines(store, history, first, title)
    decreases |history|
  {
    if |history| > 0 {
      KeepsListing(store, store', history[1..], first + 1, title);
    }
  }

  /** A listing is the first entry's line followed by the rest's. */
  lemma LinesCons<P>(store: Db<Record<P>>, history: Entries, first: int, title: P -> string)
    requires |history| > 0 && HistoryLines(store, history, first, title).Ok?
    ensures HistoryLines(store, history[1..], first + 1, title).Ok?
    ensures HistoryLines(store, history, first, title).value
            == Line(first, title(ParametersOf(store, history[0]).value))
               + HistoryLines(store, history[1..], first + 1, title).value
  {
  }

  lemma LinesOkAppend<P>(store: Db<Record<P>>, history: Entries, entry: Option<Key>, first: int, title: P -> string)
    requires HistoryLines(store, history, first, title).Ok? && ParametersOf(store, entry).Ok?
    ensures HistoryLines(store, history + [entry], first, title).Ok?
  {
    var longer := history + [entry];
    forall k | 0 <= k < |longer| ensures ParametersOf(store, longer[k]).Ok? {
      if k < |history| {
        assert longer[k] == history[k];
      }
    }
  }

  /** The inductive step of `LinesOfAppend`, given its claim for the tail. */
  lemma LinesAppendStep<P>(store: Db<Record<P>>, history: Entries, entry: Option<Key>, first: int, title: P -> string)
    requires |history| > 0
    requires HistoryLines(store, history, first, title).Ok? && ParametersOf(store, entry).Ok?
    requires HistoryLines(store, history[1..] + [entry], first + 1, title)
             == Ok(HistoryLines(store, history[1..], first + 1, title).value
                   + Line(first + |history|, title(ParametersOf(store, entry).value)))
    ensures HistoryLines(store, history + [entry], first, title)
            == Ok(HistoryLines(store, history, first, title).value
                  + Line(first + |history|, title(ParametersOf(store, entry).value)))
  {
    var longer := history + [entry];
    assert longer[0] == history[0] && longer[1..] == history[1..] + [entry];
    LinesCons(store, history, first, title);
    LinesOkAppend(store, history, entry, first, title);
    LinesCons(store, longer, first, title);
    var head := Line(first, title(ParametersOf(store, history[0]).value));
    var last := Line(first + |history|, title(ParametersOf(store, entry).value));
    var tail := HistoryLines(store, history[1..], first + 1, title).value;
    assert head + (tail + last) == (head + tail) + last;
  }

  lemma LinesOfOne<P>(store: Db<Record<P>>, entry: Option<Key>, first: int, title: P -> string)
    requires ParametersOf(store, entry).Ok?
    ensures HistoryLines(store, [entry], first, title) == Ok("" + Line(first, title(ParametersOf(store, entry).value)))
  {
    assert ([entry])[1..] == [];
    var line := Line(first, title(ParametersOf(store, entry).value));
    assert HistoryLines(store, [entry], first, title) == Ok(line + "");
    assert line + "" == line && "" + line == line;
  }

  /** Listing a history with one more entry appends that entry's line. */
  lemma {:induction false} LinesOfAppend<P>(store: Db<Record<P>>, history: Entries, entry: Option<Key>,
                                            first: int, title: P -> string)
    requires HistoryLines(store, history, first, title).Ok? && ParametersOf(store, entry).Ok?
    ensures HistoryLines(store, history + [entry], first, title)
            == Ok(HistoryLines(store, history, first, title).value
                  + Line(first + |history|, title(ParametersOf(store, entry).value)))
    decreases |history|
  {
    if |history| == 0 {
      assert history + [entry] == [entry];
      LinesOfOne(store, entry, first, title);
    } else {
      LinesCons(store, history, first, title);
      LinesOfAppend(store, history[1..], entry, first + 1, title);
      assert first + 1 + |history[1..]| == first + |history|;
      LinesAppendStep(store, history, entry, first, title);
    }
  }

  /** `action_delete_searches`: keeps the entries at the unselected positions
      and clears the selection. The selection is read without a default, so
      an unset one fails. */
  function DeleteSearches(history: Entries, selected: Option<seq<int>>): (r: Result<seq<Event>>)
    ensures selected.None? <==> r.Err?
    ensures r.Err? ==> r.error == TypeError
    ensures r.Ok? ==> r.value == [SlotSet(HistorySlot, KeyList(Keep(history, selected.value))), SlotSet(SelectedSlot, Null)]
  {
    if selected.None? then Err(TypeError)
    else Ok([SlotSet(HistorySlot, KeyList(Keep(history, selected.value))), SlotSet(SelectedSlot, Null)])
  }

  /** Deleting the search just started restores the history it was started
      from. */
  lemma DeleteStartedSearch<P>(store: Db<Record<P>>, history: Entries, emptyParameters: P)
    ensures var reply := StartSearch(store, history, emptyParameters).0;
            DeleteSearches(reply.events[0].value.keys, Some(reply.events[1].value.ints))
            == Ok([SlotSet(HistorySlot, KeyList(history)), SlotSet(SelectedSlot, Null)])
  {
    var reply := StartSearch(store, history, emptyParameters).0;
    var extended := reply.events[0].value.keys;
    assert DropIndices(extended, AsSet([|history|])) == DropIndices(history, AsSet([|history|])) by {
      assert extended[..|extended| - 1] == history;
    }
    DropIndicesOutside(history, AsSet([|history|]), {});
    DropIndicesExtremes(history);
  }

  /** `action_set_selected_searches`. Without a mention nothing is selected;
      unresolved references are apologised for and leave the selection as it
      was; otherwise the resolved positions are selected and any selection of
      results is dropped. */
  function SetSelectedSearches(m: Message, resolution: Resolution): (r: Reply)
    ensures |EntityValues(m, "mention")| == 0 ==> r == Reply([SlotSet(ErrorSlot, Text("not_specified"))], [])
    ensures |EntityValues(m, "mention")| > 0 && |resolution.errors| > 0 ==>
              r == Reply([SlotSet(ErrorSlot, Text("wrong_indices"))], [Apology(resolution.errors)])
    ensures |EntityValues(m, "mention")| > 0 && |resolution.errors| == 0 ==>
              r == Reply([SlotSet(SelectedSlot, Ints(resolution.selected)), SlotSet(ErrorSlot, Null),
                          SlotSet("selected_results", Null)], [])
  {
    if |EntityValues(m, "mention")| == 0 then Reply([SlotSet(ErrorSlot, Text("not_specified"))], [])
    else if |resolution.errors| > 0 then Reply([SlotSet(ErrorSlot, Text("wrong_indices"))], [Apology(resolution.errors)])
    else Reply([SlotSet(SelectedSlot, Ints(resolution.selected)), SlotSet(ErrorSlot, Null),
                SlotSet("selected_results", Null)], [])
  }

  /** A failed selection leaves the previous selection in place, and a
      successful one is what the slot reads back afterwards. */
  lemma SelectionOutcome(slots: Slots, m: Message, resolution: Resolution)
    ensures var r := SetSelectedSearches(m, resolution);
            var after := ApplyEvents(slots, r.events);
            && (|EntityValues(m, "mention")| == 0 || |resolution.errors| > 0 ==>
                  GetSlot(after, SelectedSlot, Null) == GetSlot(slots, SelectedSlot, Null))
            && (|EntityValues(m, "mention")| > 0 && |resolution.errors| == 0 ==>
                  SelectedSlot in after && after[SelectedSlot] == Ints(resolution.selected))
  {
    var r := SetSelectedSearches(m, resolution);
    if |EntityValues(m, "mention")| == 0 || |resolution.errors| > 0 {
      OtherSlotsAfterSet(slots, [], ErrorSlot, SelectedSlot, r.events[0].value, Null);
      assert r.events == [] + [SlotSet(ErrorSlot, r.events[0].value)];
    } else {
      LastSlotSetWins(slots, r.events, 0);
    }
  }
}
