# dine-smart in Dafny

A model of the deterministic core of dine-smart, a Rasa assistant that finds
restaurants and bars through the Google Places API, answers questions about
them, and books tables. The model covers the custom actions (search form,
search and booking lifecycles, result and history selection, place
information), their helpers (slot access, entity filtering, fuzzy location
merging, opening-hours checks, grammar, key-value stores), the two NLU
components (a spell checker and a semantic checker), the Alexa connector's
routing and SSML rendering, and the custom slot's featuriser.

Every action is a pure function. It takes the slots it reads (a map from slot
names to tagged values, where a slot set to `None` holds `Null`), the latest
message, and any outside answer it needs as explicit parameters. It returns
the events it would emit (slot sets, follow-up actions, loop deactivation,
restarts) and the responses it would utter. A Python exception becomes
`Err` with the exception's class; `RasaUtils.Guarded` is the
`handle_action_exceptions` wrapper that turns it into Rasa's reply, keeping
any response the action uttered before it raised. A slot the code reads as a list, a number
or a place but that holds another type becomes `Err(TypeError)`, and reading
the name of a place that has none becomes `Err(AttributeError)`. The outside
world is passed in:

- the Places client (`find_location`, `find_places`) as a function from a
  query to its results;
- rapidfuzz's scorers, `inflect`, the Bing spell checker, the Cambridge
  dictionary and the sentence-embedding similarity as oracle functions;
- the current time as a `now` argument, and `uuid4` as the choice of some
  key not yet in the store;
- the outcome of `resolve_mentions` (selected indices or an error) as an
  input.

Layout: one module per source file (`search_actions.dfy` for
`rasa/actions/_search.py`, `location_merge.dfy` for `merge_locations`, …),
with shared vocabulary in `wrappers.dfy` (Option, Result, error classes),
`strings.dfy` (the `str` methods used), `seqs.dfy` (list comprehensions),
`calendar.dfy` (naive dates and times), `places.dfy` (the Places records and
Duckling time values), `records.dfy`, `history.dfy` (the history list
transformations shared by searches and bookings), `keys.dfy` (the fresh
keys both stores hand out) and `locales.dfy`.

## Model

| member | source | states |
|---|---|---|
| Db.Add | rasa/actions/utils/_db.py:18-33 | the key handed back was not in use before the call, and the store afterwards is the old store with that key bound to the value |
| Db.Set | rasa/actions/utils/_db.py:35-42 | the key is bound to the value whether or not it existed; the key set grows by at most that key and every other key keeps its value |
| Db.Update | rasa/actions/utils/_db.py:44-57 | KeyError exactly when the key is absent; otherwise the value is overwritten and the set of keys is unchanged |
| Db.Get | rasa/actions/utils/_db.py:65-76 | the stored value for a present key, the default for an absent one |
| Db.Pop | rasa/actions/utils/_db.py:84-95 | a present key yields its value and is removed; an absent key yields the default and leaves the store unchanged; afterwards the key is never present |
| Db.GetItem | rasa/actions/utils/_db.py:101-105 | KeyError exactly when the key is absent, the stored value otherwise |
| Db.DelItem | rasa/actions/utils/_db.py:110-114 | KeyError exactly when the key is absent; otherwise the store loses exactly that key |
| Db.AddRoundTrip | rasa/actions/utils/_db.py:18-33 | what `add` stores is contained, read back by `get` and `[]`, and popping or deleting it restores the original store |
| Db.PopAgreesWithGet | rasa/actions/utils/_db.py:65-95 | `get` and `pop` return the same value; `pop` removes only that key |
| Keys.FreshKey | rasa/actions/utils/_kv_store.py:29-32 | the key chosen by the retry loop is not already in use |
| KvStore.AddBooking | rasa/actions/utils/_kv_store.py:20-35 | the new key was unused among bookings, the booking is stored under it, and the searches are untouched |
| KvStore.AddSearch | rasa/actions/utils/_kv_store.py:37-52 | the new key was unused among searches, the search is stored under it, and the bookings are untouched |
| KvStore.UpdateBooking | rasa/actions/utils/_kv_store.py:54-67 | KeyError exactly when the booking key is absent; otherwise only that booking changes and the key set is the same |
| KvStore.UpdateSearch | rasa/actions/utils/_kv_store.py:69-82 | KeyError exactly when the search key is absent; otherwise only that search changes and the key set is the same |
| KvStore.GetBooking | rasa/actions/utils/_kv_store.py:84-96 | KeyError exactly when the key is absent, the stored booking otherwise |
| KvStore.GetSearch | rasa/actions/utils/_kv_store.py:98-110 | KeyError exactly when the key is absent, the stored search otherwise |
| KvStore.DeleteBooking | rasa/actions/utils/_kv_store.py:112-121 | KeyError exactly when the key is absent; otherwise exactly that booking is removed and the rest keep their values |
| KvStore.DeleteSearch | rasa/actions/utils/_kv_store.py:123-132 | KeyError exactly when the key is absent; otherwise exactly that search is removed and the rest keep their values |
| KvStore.AddBookingRoundTrip | rasa/actions/utils/_kv_store.py:20-35 | a booking added is read back under its key, and deleting it restores the store |
| KvStore.AddSearchRoundTrip | rasa/actions/utils/_kv_store.py:37-52 | a search added is read back under its key, and deleting it restores the store |
| KvStore.OtherKeysUntouched | rasa/actions/utils/_kv_store.py:54-82 | updating or adding under one key leaves every other key's search and booking readable as before |
| Grammar.OrdinalSuffix | rasa/actions/utils/_grammar.py:65-68 | the suffix is one of st/nd/rd/th; 11–13 modulo 100 always take "th"; otherwise the last digit picks st, nd, rd, and everything else "th" |
| Grammar.IntToOrdinal | rasa/actions/utils/_grammar.py:62-70 | the result is the decimal numeral of the number followed by exactly the two-letter suffix |
| Grammar.OrdinalSuffixPeriodic | rasa/actions/utils/_grammar.py:65-68 | the suffix depends only on the number modulo 100 |
| Grammar.OrdinalReadsBack | rasa/actions/utils/_grammar.py:62-70 | for a non-negative number, everything before the suffix is digits whose value is the number |
| Grammar.NegativeOrdinals | rasa/actions/utils/_grammar.py:64-70 | with Python's floor modulo, -1 becomes "-1th" and -9 becomes "-9st"; 112 becomes "112th" and 22 becomes "22nd" |
| Grammar.Singularize | rasa/actions/utils/_grammar.py:31-42 | a word the inflection engine cannot singularise is returned as it is, otherwise the engine's singular |
| Grammar.Pluralize | rasa/actions/utils/_grammar.py:45-59 | a word the engine can singularise (already plural) is returned as it is, otherwise the engine's plural |
| Grammar.AgreeWithNumber | rasa/actions/utils/_grammar.py:7-28 | ValueError exactly when the count is below 1; a count of 1 gives the singular and a larger count the plural |
| Grammar.NumberIsIdempotent | rasa/actions/utils/_grammar.py:31-59 | every word is left unchanged by at least one of the two functions, and agreeing with 1 leaves a word unchanged exactly when the engine finds no different singular |
| Grammar.ToSecondSingularPerson | rasa/actions/utils/_grammar.py:73-75 | no capital "I" is left in the result, and a sentence holding none of "I", "am" and "my" comes back unchanged |
| Grammar.NoFirstPersonPronounLeft | rasa/actions/utils/_grammar.py:73-75 | no capital "I" survives the rewrite to the second person |
| Grammar.ReplacesInsideWords | rasa/actions/utils/_grammar.py:73-75 | the plain-text replacements also rewrite inside words: "Imam" becomes "youmare" |
| MiscUtils.Present | rasa/actions/utils/_misc.py:30 | the kept items are exactly the strings present in the input |
| MiscUtils.Join | rasa/actions/utils/_misc.py:10-39 | no present item gives the empty string and one present item gives that item unchanged |
| MiscUtils.LastSepReplacesFinalSeparator | rasa/actions/utils/_misc.py:36-39 | with two or more items and no last separator, all items are joined with `sep`; with one, only the final separator becomes `" " + lastSep + " "` |
| MiscUtils.JoinIgnoresMissing | rasa/actions/utils/_misc.py:30 | joining with missing items gives the same text as joining only the present ones |
| MiscUtils.CallersGetDoubledSpaces | rasa/actions/_results.py:97 | with the separators the actions pass (", " and " and "), the joined text shows doubled spaces around the last separator |
| Records.NewSearchParameters | rasa/actions/records/_search.py:10-23 | new parameters hold the location, rank by relevance, and leave every optional filter unset |
| Records.GetPriceLevels | rasa/actions/records/_search.py:25-36 | no price filter exactly for "any" or an unset range; expensive asks for expensive and very expensive, moderate and inexpensive for their own level |
| Records.GetMinRating | rasa/actions/records/_search.py:38-47 | no rating filter exactly for "any" or an unset quality; excellent asks for 4.5 stars and moderate for 3.5 |
| Records.FiltersAreOrdered | rasa/actions/records/_search.py:25-47 | the excellent threshold is above the moderate one, and the three price ranges ask for disjoint or different levels |
| SlotFeatures.AsFeature | rasa/addons/slots.py:18-28 | three components, each 0.0 or 1.0; the first is lit exactly for a missing or empty list, the second for one item, the third for several |
| SlotFeatures.OneHotAgreesWithCount | rasa/addons/slots.py:23-28 | exactly one component is lit, and it names the same case as the zero/one/multiple label the counting actions store |
| RasaUtils.GetSlot | rasa/actions/utils/_rasa.py:71-87 | the default exactly when the slot is missing or holds None, the slot's value otherwise |
| RasaUtils.GetSlotAfterSet | rasa/actions/utils/_rasa.py:86-87 | after a `SlotSet` the slot reads back the value set, or the default when None was set |
| RasaUtils.OtherSlotsAfterSet | rasa/actions/utils/_rasa.py:86-87 | a `SlotSet` of one slot does not change what any other slot reads back |
| RasaUtils.LastSlotSetWins | rasa/actions/utils/_rasa.py:86-87 | the last `SlotSet` of a slot decides its value when no restart, new session or later set of the same slot follows |
| RasaUtils.UntouchedSlot | rasa/actions/utils/_rasa.py:86-87 | a slot no event sets keeps its presence and value when nothing wipes the slots |
| RasaUtils.GetEntities | rasa/actions/utils/_rasa.py:90-119 | every entity of the latest message that has the requested type and passes the role and group filters, which apply only when non-empty, is kept, and only those |
| RasaUtils.GetEntitiesInOrder | rasa/actions/utils/_rasa.py:110-119 | the entities are tested one by one: a lone entity is kept exactly when it matches, and the result for `a + b` is that for `a` followed by that for `b`, so message order and multiplicity are kept |
| RasaUtils.GetEntitiesDocumented | rasa/actions/utils/_rasa.py:101-105 | the filter the docstring describes: a given role or group, even the empty one, must match the entity's (missing counts as ""), and every matching entity is kept |
| RasaUtils.EntitiesAgreeUnlessEmptyFilter | rasa/actions/utils/_rasa.py:113-115 | with no filter or a non-empty one, the code and the docstring select the same entities |
| RasaUtils.EmptyRoleFilterIgnored | rasa/actions/utils/_rasa.py:113 | an empty role filter lets an entity with role "guest" through, where the docstring would select none |
| RasaUtils.GetEntityValues | rasa/actions/utils/_rasa.py:122-145 | the values of the entities `get_entities` selects as written: as many, in the same order, each entity's own value |
| RasaUtils.EmptyRoleKeepsValues | rasa/actions/utils/_rasa.py:110-145 | an empty role filter keeps the value of an entity with role "guest", as the filter as written does |
| RasaUtils.EntityValues | rasa/actions/utils/_rasa.py:142-145 | a value is returned exactly when some entity of the requested type in the latest message carries it |
| RasaUtils.GetIntents | rasa/actions/utils/_rasa.py:148-161 | no intent gives the empty list; otherwise the parts contain no '+' and joined with '+' give back the intent name |
| RasaUtils.LastRun | rasa/actions/utils/_rasa.py:183-186 | the position of a run of the action with no later run, or None when it never ran |
| RasaUtils.CountActionInsideForm | rasa/actions/utils/_rasa.py:164-191 | RuntimeError exactly when no form is active; otherwise the number of runs of the action after the form's own action last ran |
| RasaUtils.LastRunIsUnique | rasa/actions/utils/_rasa.py:183-186 | a run with no later run of the same action is the one the backwards scan stops at |
| RasaUtils.StoredErrors | rasa/actions/utils/_rasa.py:43 | the stored error counter when it is an integer, and TypeError is the only failure of adding one to it |
| RasaUtils.HandleActionExceptions | rasa/actions/utils/_rasa.py:29-60 | below three errors the reply records the new count and backs out, or deactivates the active form; from the third on it restarts the conversation and utters the maximum-errors response |
| RasaUtils.Guarded | rasa/actions/utils/_rasa.py:36-56 | an action that returns is passed through; one that raised gets the handler's events, with the responses it uttered before raising ahead of the handler's own, and the whole fails only when the stored error counter is unreadable |
| RasaUtils.ThirdFailureRestarts | rasa/actions/utils/_rasa.py:43-54 | from a fresh counter, two failures back out with counts 1 and 2, the third restarts, and the restart clears the counter |
| SearchUtils.PlaceOpen | rasa/actions/utils/_search.py:74-101 | ValueError without opening hours, IndexError when the weekday has no entry, otherwise open exactly when some period of that weekday admits the time (both ends missing: always; only an end: before it; only a start: from it on; both: start ≤ t < end) |
| SearchUtils.IsPlaceOpen | rasa/actions/utils/_search.py:74-101 | the early-exit loop over the weekday's periods returns the same answer and the same errors as the reference reading `PlaceOpen` |
| SearchUtils.IsUserLocation | rasa/actions/utils/_search.py:156-159 | true whenever the lower-cased text contains one of the fixed phrases, and never for a text shorter than seven characters |
| SearchUtils.ShortTextIsNotUserLocation | rasa/actions/utils/_search.py:43-56 | a text that contains, once lower-cased, one of the fixed phrases has at least seven characters, since every phrase is that long |
| SearchUtils.UserLocationInContext | rasa/actions/utils/_search.py:156-159 | a text naming the user's location still does after any text is added around it, and after lower-casing |
| SearchUtils.MixedCasePhraseRecognised | rasa/actions/utils/_search.py:156-159 | "My Home" is recognised inside any text, because the text is lower-cased before the phrase test |
| SearchUtils.GetPlaceTitle | rasa/actions/utils/_search.py:133-139 | the title is the name, a space, and the address in parentheses, a missing part counting as empty: its length is theirs plus three and it ends in ')' |
| SearchUtils.PlaceTitleReadsBack | rasa/actions/utils/_search.py:133-139 | when the name has no '(' the title splits at its first '(' back into the name (plus the space) and the address (plus ')') |
| SearchUtils.SelectedLines | rasa/actions/_results.py:161-168 | the listing succeeds exactly when every selected position is a valid Python index into the results, and IndexError is the only failure |
| SearchUtils.SelectedRunIsEnumerated | rasa/actions/_results.py:161-168 | listing a run of consecutive positions numbers each result by its own position plus one |
| SearchUtils.SelectingAllIsEnumerating | rasa/actions/_results.py:161-168 | selecting every result lists them numbered 1, 2, 3, … in order |
| SearchUtils.FormatOptional | rasa/actions/utils/_search.py:108-109 | a present address is shown as it is, a missing one as Python's "None" |
| SearchUtils.GetSearchTitle | rasa/actions/utils/_search.py:104-130 | every title starts with "search for " and ends with " near " and the location's short address |
| SearchUtils.NamedSearchTitle | rasa/actions/utils/_search.py:106-110 | a search with a place name is titled by the name and address alone; type, cuisine, meal and activity do not affect it |
| SearchUtils.DefaultSearchTitles | rasa/actions/utils/_search.py:114-119 | without name, type, cuisine or meal the title says "places to eat", "places to have a drink" or "places to go" according to the activity |
| SearchUtils.DefaultSubject | rasa/actions/utils/_search.py:121-130 | without a name, cuisine or meal the title is "search for", the place-type phrase, and the location |
| SearchUtils.CuisineAndMealInTitle | rasa/actions/utils/_search.py:121-130 | a cuisine comes before the place-type phrase and a meal after it as " for <meal>" |
| LocationMerge.Scan | rasa/actions/utils/_search.py:256-260 | the nested scan only moves to a cell scoring strictly more than the best so far, and the cell it keeps scores what it records |
| LocationMerge.ScanIsBest | rasa/actions/utils/_search.py:256-260 | no cell the scan still visits scores above the best it returns |
| LocationMerge.Resync | rasa/actions/utils/_search.py:255-260 | the resynchronisation target is either the end of both lists with the cutoff as best, or a cell of the remaining grid scoring strictly above the cutoff |
| LocationMerge.ResyncIsBest | rasa/actions/utils/_search.py:255-260 | every cell of the remaining grid scores at most the target's score |
| LocationMerge.YKeptExactlyUnmatched | rasa/actions/utils/_search.py:266-275 | a second-string word in the skipped range is kept exactly when no first-string word matches it |
| LocationMerge.MergeWords | rasa/actions/utils/_search.py:238-281 | the merged word count is at least the first string's and at most the sum of both |
| LocationMerge.MergeLocations | rasa/actions/utils/_search.py:214-283 | NotImplementedError exactly when the number of parts is not two; otherwise the merged words of the two whitespace-split parts joined by spaces |
| LocationMerge.PlanEmitsAllOfX | rasa/actions/utils/_search.py:245-281 | every remaining first-string word is emitted exactly once and in its original order |
| LocationMerge.PlanYIsIncreasing | rasa/actions/utils/_search.py:245-281 | the second-string words that are emitted appear in increasing original position, with none repeated |
| LocationMerge.PlanInBounds | rasa/actions/utils/_search.py:245-281 | every emitted word exists in its string |
| LocationMerge.PlanLength | rasa/actions/utils/_search.py:245-281 | the plan holds all first-string words and at most all second-string words |
| LocationMerge.SkippedWordsAreUnmatched | rasa/actions/utils/_search.py:266-275 | a second-string word emitted during resynchronisation lies in range and has no match among the first-string words |
| LocationMerge.Exact | rasa/actions/utils/_search.py:241 | an exact-match scorer: a pair reaches the cutoff exactly when the words are equal |
| LocationMerge.ExampleAppend | rasa/actions/utils/_search.py:227-228 | under exact matching, "via Cavour" and "Rome" merge to all three words |
| LocationMerge.ExampleOverlap | rasa/actions/utils/_search.py:229-230 | under exact matching, "via Cavour 16 Rome" and "Rome Italy" share "Rome" once |
| LocationMerge.ExampleInsert | rasa/actions/utils/_search.py:231-232 | under exact matching, "16" from the second string is inserted into "via Cavour Rome" |
| LocationMerge.DocumentedExamples | rasa/actions/utils/_search.py:226-232 | the three docstring examples hold on the strings themselves |
| Info.LastInfoRequest | rasa/actions/_info.py:81-89 | the backwards scan finds the latest user turn with an answerable intent, or None when there is none |
| Info.GetInfoIntents | rasa/actions/_info.py:77-100 | RuntimeError exactly when no user turn asks for information; otherwise a non-empty list of answerable '+'-parts of the latest such turn's intent, with that turn's entities |
| Info.InfoIntentsOfRequest | rasa/actions/_info.py:95-98 | for a latest request "a+b+…" the answered intents are exactly its answerable parts, in the order given |
| Info.Clip | rasa/actions/_info.py:492-517 | a period contributes nothing exactly when it is all-day, ends before the window or starts after it; otherwise it is clamped to the window, a missing start reading as the window start and a missing end as the window end |
| Info.ClipAll | rasa/actions/_info.py:491-519 | at most one interval per period |
| Info.GetIntervals | rasa/actions/_info.py:476-519 | RuntimeError without opening hours, IndexError when the weekday has no entry; no intervals for a day without periods; the whole window when the first period is all-day; never more intervals than periods |
| Info.ClipCovers | rasa/actions/_info.py:492-517 | a clipped period covers exactly the window times the period admits |
| Info.ClipAllCovers | rasa/actions/_info.py:491-519 | the clipped intervals cover a time exactly when it lies in the window and some period that is not all-day admits it |
| Info.IntervalsCoverOpenTimes | rasa/actions/_info.py:484-519 | the intervals cover a time exactly when it lies in the window and the place is open then (the whole window when the day starts all-day) |
| Info.ClipAllWithinWindow | rasa/actions/_info.py:513-517 | with an ordered window and ordered periods, every interval is ordered and lies within the window |
| Info.IntervalsWithinWindow | rasa/actions/_info.py:476-519 | every returned interval (s, e) has start ≤ s ≤ e ≤ end under the same ordering assumptions |
| Info.DaySchedule | rasa/actions/_info.py:438-473 | RuntimeError without opening hours, IndexError for a weekday without an entry; when every period is a dropped midnight end, the sentence is "on <day>, <name> is closed" |
| Info.LastAllDay | rasa/actions/_info.py:462-464 | the position of the last all-day period, or None when there is none |
| Info.DayScheduleShape | rasa/actions/_info.py:453-473 | as written, an all-day period replaces everything before it: the sentence is "all day" followed by the periods after the last one; without all-day periods it lists every period after the "on <day>, <name> is open" opening |
| Info.AllDayLosesTheDay | rasa/actions/_info.py:462-464 | a place open around the clock on Mondays is described as just "all day", without the weekday or the name |
| Info.DayScheduleIntended | rasa/actions/_info.py:453-473 | the corrected sentence fails exactly when the written one does, and always opens with "on <day>, <name> is " |
| Info.IntendedScheduleAgrees | rasa/actions/_info.py:453-473 | without all-day periods the corrected and the written sentences are equal |
| Info.IntendedAllDayNamesTheDay | rasa/actions/_info.py:462-464 | the corrected sentence for the around-the-clock Monday is "on Monday, <name> is open all day" |
| Info.NameOrIt | rasa/actions/_info.py:181 | the place's name when it is given and non-empty, "it" otherwise |
| Info.GoodForChildren | rasa/actions/_info.py:176-198 | the answer for each of the nine combinations of the good-for-children and children's-menu flags |
| Info.ChildrenUnknownOnlyWithoutData | rasa/actions/_info.py:192-196 | the "couldn't find" answer is given exactly when the place reports neither flag |
| Info.PriceLevelAnswer | rasa/actions/_info.py:120-136 | the "couldn't find" answer exactly for a missing or unspecified level, and one fixed sentence for each other price level |
| BookingHistory.GetBookings | rasa/actions/_booking_history.py:225-261 | the positions returned are strictly increasing, within the list, and are exactly those of the bookings falling in the time: an instant matches on the fields its grain names (year; year and month; year and ISO week; date; the exact moment for hour, minute and second), an interval includes both ends |
| BookingHistory.GetBookingsAgree | rasa/actions/_booking_history.py:225-261 | two times that admit the same bookings select the same positions |
| BookingHistory.OpenIntervalIsItsStart | rasa/actions/_booking_history.py:254-259 | an interval without an end selects exactly the bookings at its start moment, as the instant at second grain does |
| BookingHistory.GrainsNest | rasa/actions/_booking_history.py:229-253 | around the same instant second, minute and hour select the same bookings; what the day selects the week and the month select too; what the week or the month selects the year selects too (a week can cross a month boundary, so week and month do not nest) |
| BookingHistory.GetBookingsAll | rasa/actions/_booking_history.py:86-87 | a position is collected exactly when its booking falls in one of the parsed times |
| BookingHistory.LookupBookings | rasa/actions/_booking_history.py:84-85 | KeyError exactly when some history entry is a placeholder or an unknown key; otherwise the stored booking of each entry, in order |
| BookingHistory.SetSelectedBookings | rasa/actions/_booking_history.py:31-100 | empty history: error "no_bookings"; no mention and one booking: [0]; no mention and several: every position when the message asks for the history, else "no_selection"; resolution errors: "invalid_selection" and an apology, without touching the selection; no times: the resolved positions or "no_bookings_found"; a KeyError only from looking up the bookings |
| BookingHistory.SelectionByTime | rasa/actions/_booking_history.py:79-100 | with times, the selection holds each position that was resolved or whose booking falls in one of the times, once each in increasing order, and is cleared with "no_bookings_found" exactly when there is none |
| BookingHistory.DeleteSelectedBookings | rasa/actions/_booking_history.py:146-161 | the new history keeps exactly the unselected entries in their original order, the selection is cleared, and the deletion is announced |
| BookingHistory.SelectAllThenDelete | rasa/actions/_booking_history.py:52-61 | selecting the whole history and deleting it leaves an empty history; deleting with nothing selected keeps the history as it was |
| BookingHistory.CountSelectedBookings | rasa/actions/_booking_history.py:204-217 | the label is "zero", "one" or "multiple" exactly for an empty, single or larger selection |
| History.CountLabel | rasa/actions/_booking_history.py:210-217 | "zero" exactly for 0, "one" exactly for 1 and "multiple" exactly for 2 or more |
| History.Apology | rasa/actions/_booking_history.py:75 | the apology starts with "Sorry, but " and ends with ".\n" |
| History.Open | rasa/actions/_booking.py:358-359 | the new history is the old one followed by exactly one placeholder |
| History.Fill | rasa/actions/_booking.py:466-467 | IndexError exactly for a position Python cannot index; otherwise only the entry at that position changes, to the new key |
| History.Remove | rasa/actions/_booking.py:494-495 | IndexError exactly for a position Python cannot index; otherwise that entry is removed and the others keep their order |
| History.Keep | rasa/actions/_booking_history.py:153-154 | deleting never lengthens the history |
| History.KeepIsExact | rasa/actions/_booking_history.py:153-154 | the kept entries are exactly those at unselected positions, once each, in their original order |
| History.KeepExtremes | rasa/actions/_booking_history.py:153-154 | an empty selection deletes nothing and selecting every position deletes everything |
| History.OpenThenCancelOrFill | rasa/actions/_booking.py:358-359 | removing the placeholder just opened restores the history, and filling it appends the new key |
| History.SelectedEntry | rasa/actions/_booking.py:520-521 | IndexError exactly when the selection is empty or its first position is not a valid index; otherwise the entry it points at |
| History.Lookup | rasa/actions/_booking.py:524-525 | KeyError exactly when the entry is a placeholder or a key the store does not hold; otherwise the stored value |
| BookingActions.Verdict | rasa/actions/_booking.py:55-85 | the two slot assignments of a setter: the value and no error when accepted, no value and the reason when refused |
| BookingActions.FirstTime | rasa/actions/_booking.py:38-46 | the first parse of the first entity value that parses to anything, or None exactly when none does |
| BookingActions.StartOf | rasa/actions/_booking.py:48-52 | an instant gives its moment and grain, an interval those of its start |
| BookingActions.CheckDateTime | rasa/actions/_booking.py:55-85 | the checks run in the order past, far, coarse, closed and the first that fails names the reason; a date passing all four is accepted; only the opening-hours lookup can raise |
| BookingActions.SetBookingDateTime | rasa/actions/_booking.py:28-85 | nothing is set when no datetime entity parses; otherwise the date is stored with no error exactly when it is accepted, and refused with one of the known reasons otherwise; as written, it is refused as far exactly when it is not in the past and its day of the month exceeds today's by more than 28 |
| BookingActions.SetBookingDateTimeIntended | rasa/actions/_booking.py:55-85 | the same setter with the far test as intended: a date not in the past is refused as far exactly when it lies more than 28 days after now |
| BookingActions.AskBookingDateTime | rasa/actions/_booking.py:161-183 | no error and each of coarse, past, far and closed pick their own question; any other value raises RuntimeError |
| BookingActions.DateTimeErrorsAreAsked | rasa/actions/_booking.py:55-85 | whatever error the date setter records, the date question understands |
| BookingActions.FarAsWrittenRarelyFires | rasa/actions/_booking.py:61-65 | as written, the far test never fires once the current day of the month is past the 2nd |
| BookingActions.FarAsWrittenIsNotMonotone | rasa/actions/_booking.py:61-65 | as written, on 2024-01-01 the 31st of January is far while the 1st of February and the 15th of June are not |
| BookingActions.FarIsMonotone | rasa/actions/_booking.py:61-65 | with the intended test, every date after a far date is far too |
| BookingActions.SetterAsWrittenAcceptsDistantDate | rasa/actions/_booking.py:55-85 | the checks as written accept a date five months ahead at a place that never closes, which the intended test refuses as far |
| BookingActions.SetBookingPeopleCount | rasa/actions/_booking.py:95-125 | nothing is set without a parsed number; otherwise the count is stored exactly when it is between 1 and 10, with "small" below and "large" above |
| BookingActions.AskBookingPeopleCount | rasa/actions/_booking.py:193-221 | no error, "small" and "large" pick their own question; any other value raises RuntimeError |
| BookingActions.PeopleCountErrorsAreAsked | rasa/actions/_booking.py:109-125 | whatever error the party-size setter records, the party-size question understands |
| BookingActions.SetBookingAuthor | rasa/actions/_booking.py:135-151 | an affirmation while the author is asked for stores the known user name; otherwise the first user-name entity, if any, becomes the author |
| BookingActions.AskBookingAuthor | rasa/actions/_booking.py:231-246 | the question offers the known name exactly when the name is not the "\b" placeholder |
| BookingActions.AffirmedNameBecomesAuthor | rasa/actions/_booking.py:141-145 | affirming the offered name stores exactly that name as the author |
| BookingActions.ChosenSearch | rasa/actions/_booking.py:284-289 | IndexError exactly when a selection is empty or points outside its list; KeyError for a placeholder or unknown key; otherwise the stored search |
| BookingActions.ChosenPlace | rasa/actions/_booking.py:361-368 | the selected result of the chosen search, failing exactly when the search fails, has no results or the result position is not a valid index |
| BookingActions.CheckIsReservable | rasa/actions/_booking.py:278-293 | the flag is true exactly when the chosen place explicitly accepts reservations |
| BookingActions.StateNotReservable | rasa/actions/_booking.py:303-323 | it fails as finding the chosen place does, fails with AttributeError when that place has no display name, and otherwise only utters the not-reservable response |
| BookingActions.SuggestBooking | rasa/actions/_booking.py:261-268 | the suggestion is uttered and the flag asking for it is cleared |
| BookingActions.BookingAt | rasa/actions/_booking.py:550-554 | IndexError exactly for a missing or invalid selection, KeyError for a placeholder or unknown key, the stored booking otherwise |
| BookingActions.LoadEvents | rasa/actions/_booking.py:348-355 | six slot assignments fill the form from a stored booking |
| BookingActions.StartBooking | rasa/actions/_booking.py:333-384 | modifying loads the selected booking into the form and fails as its lookup does; otherwise a placeholder is appended and selected, the place is the selected search result, the other form slots are cleared, and failures are those of finding the place, or AttributeError when it has no display name |
| BookingActions.Changes | rasa/actions/_booking.py:418-425 | each field is listed exactly when it differs from the stored booking, in the order party size, date, author |
| BookingActions.ConfirmBooking | rasa/actions/_booking.py:394-429 | a placeholder is confirmed with the template; a stored booking with the header followed by exactly its changes |
| BookingActions.CreateBooking | rasa/actions/_booking.py:439-472 | a stored booking is overwritten under its own key; a placeholder is replaced by a fresh key under which the booking is stored, every other entry unchanged, and the selection points at it |
| BookingActions.RunCreateBooking | rasa/actions/_booking.py:458-462 | run inside the exception handler, a modification whose booking is not in the store still utters "utter_booking_modified", followed by the handler's reply, and leaves the store as it was; a failed selection gets the handler's reply alone |
| BookingActions.LostBookingStillReportsModified | rasa/actions/_booking.py:458-462 | with history `[Some("k")]`, selection `[0]` and no booking "k", the first failure outside a form says the booking was modified, counts one error and backs out |
| BookingActions.CancelBooking | rasa/actions/_booking.py:482-503 | a placeholder is removed from the history and the selection emptied; a modification changes nothing |
| BookingActions.CheckFutureBooking | rasa/actions/_booking.py:513-529 | a placeholder counts as in the future; a stored booking is in the future exactly when its date is after now |
| BookingActions.ShowBookingDetails | rasa/actions/_booking.py:544-565 | fails exactly as the booking lookup does, otherwise utters the details of the selected booking |
| BookingActions.NewBookingLifecycle | rasa/actions/_booking.py:357-529 | for a just-opened placeholder: cancelling restores the history, confirming uses the template, it counts as in the future, and creating it appends a fresh key whose details show what was entered |
| BookingActions.ModifyLifecycle | rasa/actions/_booking.py:343-461 | modifying loads the stored values into the form, confirming the untouched form lists no change, and saving leaves the store as it was |
| SearchActions.RequiredSlots | rasa/actions/_search.py:18-52 | the form asks only for the location exactly when one of the five alternative slots is set, otherwise for the place type and then the location |
| SearchActions.FirstSome | rasa/actions/_search.py:198-204 | a loop that breaks at its first match: nothing exactly when no intent matches, otherwise the match of the earliest matching intent |
| SearchActions.LastSome | rasa/actions/_search.py:226-237 | a loop without `break`: nothing exactly when no intent matches, otherwise the match of the latest matching intent |
| SearchActions.SetSearchPlaceType | rasa/actions/_search.py:62-82 | no place-type entity sets nothing; otherwise the first entity's value is stored when the semantic checker accepted it, and the error flag is its negation |
| SearchActions.SetSearchOpenNow | rasa/actions/_search.py:166-181 | the open-now flag is set to true exactly when some intent ends in "now", and nothing is set otherwise |
| SearchActions.SetSearchActivity | rasa/actions/_search.py:191-209 | the activity is set exactly when some intent mentions eating or drinking, and it is that of the first such intent |
| SearchActions.SetSearchPriceRange | rasa/actions/_search.py:219-242 | the price range is set exactly when some price-range intent is present, and it is that of the last one |
| SearchActions.SetSearchQuality | rasa/actions/_search.py:252-273 | the quality is set exactly when some quality intent is present, and it is that of the last one |
| SearchActions.FirstActivityWins | rasa/actions/_search.py:198-204 | "inform_drink+inform_eat" sets drinking: the first activity intent decides |
| SearchActions.EatingIsTestedFirst | rasa/actions/_search.py:199-203 | an intent that mentions both activities counts as eating |
| SearchActions.LastPriceRangeWins | rasa/actions/_search.py:226-237 | "inform_price_range_expensive+inform_price_range_moderate" sets "moderate": the later intent overrides the earlier |
| SearchActions.AskSearchPlaceType | rasa/actions/_search.py:283-295 | the question complains about an invalid type exactly when the error slot is truthy |
| SearchActions.FlaggedPlaceTypeIsQuestioned | rasa/actions/_search.py:72-82 | after a place type is given, the next question complains exactly when the semantic checker flagged it |
| SearchActions.SetSearchLocation | rasa/actions/_search.py:92-156 | as intended (see Findings): a "where I am" phrase uses the user's location or records that it is unknown; without a location entity the slot is filled from the user's location only for an open-now search with no location and no error yet; otherwise one place found is stored and remembered as the user's location only when the user said it is theirs or had been asked for it, and none or several places clear the location and append the reason with the text looked up |
| SearchActions.SetSearchLocationAsWritten | rasa/actions/_search.py:129-154 | as written, every single place found is also stored as the user's location |
| SearchActions.SetterAsWrittenOverwritesUserLocation | rasa/actions/_search.py:129-154 | a user at home who names Rome, with an ordinary intent, gets Rome stored as their location by the code as written, and not by the intended action |
| SearchActions.UserLocationKeptUnlessMeant | rasa/actions/_search.py:129-154 | the intended action changes the user's location only when the user said the place is where they are, or their location had been asked for |
| SearchActions.FoundLocationCompletesForm | rasa/actions/_search.py:148-152 | after a single place is found, the form describes a search at that place |
| SearchActions.LocationErrorIsExplained | rasa/actions/_search.py:140-146 | after a lookup that finds no place or several, the next question says which, naming the text looked up |
| SearchActions.UnknownUserLocationIsAskedFor | rasa/actions/_search.py:99-104 | "where I am" from a user whose location is unknown leads to the question asking for it |
| SearchActions.AmbiguityNarrowsTheQuery | rasa/actions/_search.py:133-141 | after an ambiguous answer, the next location given is looked up merged with the ambiguous text |
| SearchActions.AskSearchLocation | rasa/actions/_search.py:305-352 | with no earlier issue, an open-now search asks for the user's location, a named place asks where it is, and anything else asks for a location naming the places sought; otherwise the latest issue decides between asking for the user's location, the ambiguous text and the unknown text |
| SearchActions.SearchAt | rasa/actions/_search.py:377-378 | the selected search is found exactly when the selection indexes the history at a stored key; a bad index is IndexError, a placeholder or missing key KeyError |
| SearchActions.LoadEvents | rasa/actions/_search.py:380-392 | loading a search sets each of the eleven form slots, in order |
| SearchActions.StartSearch | rasa/actions/_search.py:367-418 | an "inform" intent loads the selected search into the form; otherwise a placeholder is appended and selected alone, the result selection and every form slot are cleared, and a booking is suggested exactly when the message has a datetime |
| SearchActions.FormParameters | rasa/actions/_search.py:437-450 | the form describes parameters exactly when its location slot holds a place; the ranking is the default |
| SearchActions.CreateSearch | rasa/actions/_search.py:434-468 | an existing search is overwritten in the store under its key with no slot change; a placeholder is replaced by a fresh key holding the form's search and reselected |
| SearchActions.CancelSearch | rasa/actions/_search.py:484-499 | a placeholder is removed from the history and the selection emptied; an existing search is left alone |
| SearchActions.NewSearchAsksForPlaceType | rasa/actions/_search.py:45-52 | after a new search is started the form asks for the place type first |
| SearchActions.NewSearchLifecycle | rasa/actions/_search.py:394-499 | cancelling a just-opened search restores the history; creating it appends a fresh key for the form's search |
| SearchActions.LoadedSlots | rasa/actions/_search.py:380-392 | each form slot reads back the value loading a search put there |
| SearchActions.LoadedFormParameters | rasa/actions/_search.py:380-450 | the form loaded from a search describes that same search, except that the ranking returns to relevance |
| SearchActions.ModifySearchRoundTrip | rasa/actions/_search.py:375-392 | modifying a search and saving it unchanged keeps every parameter but resets the ranking and forgets the results |
| SearchActions.SearchBody | rasa/actions/_search.py:535-574 | no result adds nothing, one result adds its title, more add the first page of titles numbered from 1 |
| SearchActions.FirstPage | rasa/actions/_search.py:581 | the selected positions are 0, 1, ... up to five of them and never past the last result |
| SearchActions.Search | rasa/actions/_search.py:520-590 | fails exactly as the lookup of the selected search does; the results are stored with the search, the first page is selected, and the booking follow-up is added, as the second and last event, exactly for a single reservable result when one is to be suggested |
| SearchActions.BookingActionsSuggestion | rasa/actions/_booking.py:261-268 | suggesting a booking clears the suggestion flag |
| SearchActions.SuggestionIsMadeOnce | rasa/actions/_search.py:583-588 | once the booking has been suggested, a later search never suggests it again |
| SearchActions.ChangeSearchRankBy | rasa/actions/_search.py:606-657 | the first ranking intent decides; none is a RuntimeError and an unsupported one is declined; the current ranking changes nothing; fewer than two results only records the ranking; otherwise the places are queried again and the first page selected |
| SearchActions.RerankingIsIdempotent | rasa/actions/_search.py:630-634 | asking again for the ranking just applied changes nothing |
| Results.SelectedSearchResults | rasa/actions/_results.py:50-53 | the results are found exactly when the selected history entry is a stored key; a search never run counts as having no results |
| Results.SelectResults | rasa/actions/_results.py:55-110 | no results gives "no_results"; without mentions a lone result is selected, "show_results" selects all, an "ask_" intent re-emits the previous selection and error, and anything else gives "no_selection"; with mentions, unresolved references are apologised for and resolved ones selected |
| Results.SetSelectedResults | rasa/actions/_results.py:44-110 | the search is looked up before the message is read, so a missing search fails whatever the message says |
| Results.QuestionKeepsSelection | rasa/actions/_results.py:76-82 | a question about the results leaves both selection slots as they were |
| Results.InvalidSelectionKeepsSelection | rasa/actions/_results.py:96-99 | an unresolved reference changes the error but keeps the previous selection |
| Results.ShowResults | rasa/actions/_results.py:131-176 | one selected position shows that place, failing on a bad index or a nameless place, and is followed by the booking suggestion exactly when it is reservable and one is due; selecting as many positions as there are results lists all, numbered from 1; any other selection lists the chosen positions |
| Results.ShowSelectedResults | rasa/actions/_results.py:120-176 | fails exactly as the search lookup does, and otherwise shows the selection of that search's results |
| Results.ShowingAllResults | rasa/actions/_results.py:70-74 | after "show_results" the whole list is selected, and showing it lists every result, numbered from 1 |
| Results.CountSelectedResults | rasa/actions/_results.py:186-199 | the count label names the zero/one/multiple case of the selection's length |
| Results.CountAfterSelection | rasa/actions/_results.py:63-74 | the count after an automatic selection is "one" for a lone result and "multiple" when all of several were selected |
| SearchHistory.ParametersOf | rasa/actions/_search_history.py:32 | `store[key]["parameters"]` succeeds exactly when the entry is a stored key holding parameters, and fails with KeyError otherwise |
| SearchHistory.HistoryLines | rasa/actions/_search_history.py:31-33 | the listing succeeds exactly when every history entry has stored parameters |
| SearchHistory.ShowSearchHistory | rasa/actions/_search_history.py:22-36 | an unset history fails; otherwise every search is listed after the heading, and the selection is cleared |
| SearchHistory.ClearSearchHistory | rasa/actions/_search_history.py:46-55 | empties the history and the selection |
| SearchHistory.ClearedHistoryIsEmpty | rasa/actions/_search_history.py:28-55 | after clearing, the history lists no search |
| SearchHistory.StartSearch | rasa/actions/_search_history.py:65-84 | a search with empty parameters is stored under a key not used before, which is appended to the history and selected alone |
| SearchHistory.StartedSearchIsSelected | rasa/actions/_search_history.py:71-80 | the selection made by starting a search points at the new search's empty parameters |
| SearchHistory.StartSearchExtendsListing | rasa/actions/_search_history.py:31-80 | starting a search adds exactly one line, for the new search, numbered after the others |
| SearchHistory.KeepsListing | rasa/actions/_search_history.py:31-33 | a store that only gains entries lists an old history the same way |
| SearchHistory.LinesOfAppend | rasa/actions/_search_history.py:31-33 | listing a history with one more entry appends that entry's line |
| SearchHistory.DeleteSearches | rasa/actions/_search_history.py:158-170 | an unset selection fails; otherwise exactly the unselected entries are kept, in order, and the selection is cleared |
| SearchHistory.DeleteStartedSearch | rasa/actions/_search_history.py:71-80 | deleting the search just started restores the history it was started from |
| SearchHistory.SetSelectedSearches | rasa/actions/_search_history.py:180-206 | no mention gives "not_specified"; unresolved references are apologised for with "wrong_indices"; otherwise the resolved positions are selected and the result selection cleared |
| SearchHistory.SelectionOutcome | rasa/actions/_search_history.py:186-206 | a failed selection leaves the previous selection in place, and a successful one is what the slot reads afterwards |
| Session.Carried | rasa/actions/_misc.py:33-37 | one event per carried slot at most, in the tracker's order |
| Session.SessionStart | rasa/actions/_misc.py:29-43 | the session opens, the carried slots follow, then the error counter is zeroed and the user location cleared, and the bot listens |
| Session.CarriedSlots | rasa/actions/_misc.py:29-37 | a fresh session holds exactly the carried names, each with its previous value |
| Session.SessionCarriesOver | rasa/actions/_misc.py:29-43 | the new session holds exactly the previous set slots other than the error counter and the user location, with their values, plus a zero error counter and no user location |
| Session.Greet | rasa/actions/_misc.py:53-65 | the first greeting is used exactly when the user is not known yet, and it marks the user as known; a known user gets the ordinary greeting and no change |
| Session.SecondGreetingIsOrdinary | rasa/actions/_misc.py:59-65 | greeting again right after the first greeting gives the ordinary greeting |
| Session.KnownUserSurvivesSession | rasa/actions/_misc.py:31-64 | a user greeted in an earlier session is still known after a session start |
| SemanticChecker.Languages | rasa/components/_semantic_checker.py:89-92 | the supported languages are exactly the language parts of the supported locales |
| SemanticChecker.OnlyEnglish | rasa/components/_semantic_checker.py:89-92 | the only supported language is English |
| SemanticChecker.ExtractCountry | rasa/components/_semantic_checker.py:183-200 | a locale is accepted exactly when it is a supported regional tag or a bare supported language, and it names a country exactly when it has a region |
| SemanticChecker.RegionalParts | rasa/components/_semantic_checker.py:189 | every supported locale splits into exactly a language and a region |
| SemanticChecker.Countries | rasa/components/_semantic_checker.py:180-200 | "en-GB" uses the "uk" edition, "en-US" the "us" one, bare "en" the default, and "it-IT" and "it" are refused |
| SemanticChecker.Templates | rasa/components/_semantic_checker.py:57-63 | the template table is built exactly when no entity type is configured twice, and it maps each configured type to its template |
| SemanticChecker.NewChecker | rasa/components/_semantic_checker.py:38-63 | the component is built exactly when the default locale is accepted and the entity types are distinct; it keeps that locale's country and the template table |
| SemanticChecker.CheckMeaning | rasa/components/_semantic_checker.py:136-142 | a value is correct exactly when some definition's similarity to the template exceeds the threshold |
| SemanticChecker.UnknownWordIsIncorrect | rasa/components/_semantic_checker.py:137-138 | a word without definitions is never correct |
| SemanticChecker.Hyphenate | rasa/components/_semantic_checker.py:161 | the looked-up word has every space turned into a hyphen and nothing else changed |
| SemanticChecker.ReplaceSpacesIsHyphenate | rasa/components/_semantic_checker.py:161 | replacing every " " by "-" is that character-wise substitution |
| SemanticChecker.DefinitionUrl | rasa/components/_semantic_checker.py:161-165 | the dictionary address holds the hyphenated word, under the country's edition when there is one |
| SemanticChecker.UpdateEntities | rasa/components/_semantic_checker.py:118-134 | each entity of a checked type gets the verdict for its own value and template; the others are unchanged, in the same order |
| SemanticChecker.Process | rasa/components/_semantic_checker.py:104-112 | a message without metadata fails with AttributeError; a non-empty metadata locale must be accepted and chooses the edition; a missing or empty one leaves the default edition |
| SemanticChecker.ProcessOnlyFlags | rasa/components/_semantic_checker.py:104-134 | processing changes nothing but the correctness flags |
| SpellChecker.NewChecker | rasa/components/_spell_checker.py:33-44 | the component is built exactly when the default market is supported |
| SpellChecker.Create | rasa/components/_spell_checker.py:46-63 | a missing key is a RuntimeError reported before the market is checked |
| SpellChecker.ChooseLocale | rasa/components/_spell_checker.py:90-97 | a message's own locale is used when present and must be supported; otherwise the default is used |
| SpellChecker.ChosenLocaleIsSupported | rasa/components/_spell_checker.py:36-97 | a constructed component only ever sends supported markets |
| SpellChecker.ApplyCorrections | rasa/components/_spell_checker.py:132-137 | the corrections succeed exactly when every flagged token has a suggestion; a missing one is an IndexError |
| SpellChecker.NoFlagsIsIdentity | rasa/components/_spell_checker.py:132-137 | without flagged tokens the text is unchanged |
| SpellChecker.SingleCorrection | rasa/components/_spell_checker.py:133-135 | one flagged token replaces exactly its first occurrence with its best suggestion, and a token not in the text changes nothing |
| SpellChecker.CorrectionsCompose | rasa/components/_spell_checker.py:132-137 | applying two batches of corrections one after the other is applying their concatenation |
| SpellChecker.ProcessMessage | rasa/components/_spell_checker.py:89-102 | an unsupported locale fails even when there is no text; a message without text is left alone; otherwise the text gets the corrections the service flags for the chosen market |
| SpellChecker.Process | rasa/components/_spell_checker.py:88-104 | a batch succeeds exactly when every message does, and each message's text is then replaced by its corrected text |
| SpellChecker.Languages | rasa/components/_spell_checker.py:73-76 | the supported languages are exactly the language parts of the supported markets |
| SpellChecker.LanguagesArePrefixes | rasa/components/_spell_checker.py:73-76 | each supported language is the two-letter prefix of a market, English among them |
| SpellChecker.ChosenLanguageIsSupported | rasa/components/_spell_checker.py:73-97 | the market of a processed message is in one of the supported languages |
| Alexa.RenderLine | rasa/connectors/_alexa.py:45-64 | a line renders exactly when it is non-empty and, if led by a digit, holds a '.'; an empty line is an IndexError and a numbered line without a '.' a ValueError |
| Alexa.RenderLineShapes | rasa/connectors/_alexa.py:45-64 | a "-" line is a sentence, opening the paragraph on the first line and pausing before it otherwise; any other unnumbered line closes the previous paragraph and opens one |
| Alexa.NumberedLine | rasa/connectors/_alexa.py:54-59 | a numbered line keeps its number and its text, with a pause between them after the first '.' |
| Alexa.RenderLines | rasa/connectors/_alexa.py:43-64 | only IndexError or ValueError stop the reply |
| Alexa.RenderLinesSucceedsIff | rasa/connectors/_alexa.py:43-64 | the reply renders exactly when every one of its lines does |
| Alexa.RenderOneLine | rasa/connectors/_alexa.py:43-64 | a one-line reply renders as that line at its position |
| Alexa.RenderLinesAppend | rasa/connectors/_alexa.py:43-64 | lines render one after the other: the lines of `a + b` give those of `a` followed by those of `b` numbered on from the end of `a`, and the first failing line fails the whole |
| Alexa.BulletPair | rasa/connectors/_alexa.py:47-53 | two bullets make one paragraph of two sentences with a pause between them |
| Alexa.StripControls | rasa/connectors/_alexa.py:67-69 | exactly the characters outside 1-31 are kept, in their order |
| Alexa.Sanitise | rasa/connectors/_alexa.py:67-70 | the text with its control characters removed and every '&' then spelled "and"; no control character and no '&' remain |
| Alexa.SanitiseClean | rasa/connectors/_alexa.py:67-70 | text that is already clean is unchanged by the clean-up |
| Alexa.SanitiseBetween | rasa/connectors/_alexa.py:67-70 | the clean-up works piece by piece around clean text |
| Alexa.Ssml | rasa/connectors/_alexa.py:43-70 | the SSML is produced exactly when every line of the reply renders; it is the cleaned rendering inside `<speak>` and the closing tags, and holds no control character and no '&' |
| Alexa.SsmlIsFramed | rasa/connectors/_alexa.py:44-65 | a rendered reply always starts with `<speak>` and ends by closing the last paragraph and the `speak` element |
| Alexa.PlainReply | rasa/connectors/_alexa.py:60-65 | a one-line plain reply is one paragraph holding one sentence |
| Alexa.Route | rasa/connectors/_alexa.py:100-152 | a missing payload asks again and keeps the session; a locale not starting with "en" is refused in English and ends it; only English requests are forwarded to the assistant |
| Alexa.RoutingTable | rasa/connectors/_alexa.py:116-149 | CanFulfillIntentRequest is not implemented; a launch sends "hi"; stopping and ending the session send "goodbye" and end it; help, cancel and the user's input are forwarded and keep it |
| Alexa.UnknownRequests | rasa/connectors/_alexa.py:141-152 | any other request type is a RuntimeError, and an unknown intent is asked again |
| Alexa.Texts | rasa/connectors/_alexa.py:169 | the bot texts are collected exactly when every bot message has text, and a message without text is a KeyError |
| Alexa.HandleRequest | rasa/connectors/_alexa.py:96-176 | fails exactly as the routing or the text collection does; a direct answer is returned as routed; a forwarded request keeps the routed session flag and answers with the bot texts joined by line breaks, or with the fallback apology when there is no bot message |
| Alexa.RepliesAreLines | rasa/connectors/_alexa.py:169-171 | each bot message becomes one line of the reply |
| Alexa.Receive | rasa/connectors/_alexa.py:39-91 | the reply is the SSML of the handled request's text, with its session flag, and it fails exactly when either step does |
| Alexa.MissingPayload | rasa/connectors/_alexa.py:101-106 | a request without a payload gets the plain SSML question and keeps the session open |
| Alexa.NotEnglish | rasa/connectors/_alexa.py:108-112 | a request in another language gets the plain SSML refusal and ends the session, whatever it asks |

## Left out

- Network calls: the Google Places client (`_get_client`, `find_location`, `find_parkings`, `find_places` in `rasa/actions/utils/_search.py`), Duckling parsing in `rasa/actions/utils/_parsing.py`, the Bing spell-check POST, the Cambridge dictionary scrape, and the Alexa webhook (`blueprint`, `health`, the Sanic request and JSON envelope). Their answers are parameters of the model.
- Library behaviour: rapidfuzz's `ratio`, `extractOne` and `default_process`, the `inflect` engine, sentence-transformer embeddings with their cosine similarity (floating point, GPU), and geopy distances. Each is an oracle parameter. Only the contracts the code itself relies on are assumed about them.
- `resolve_mentions` is not part of this model. No file here defines it, so its outcome (indices or an error) is an input.
- `serialize` and `deserialize` of `rasa/actions/utils/_misc.py` are not modelled. Places stored in slots are opaque values, and search and booking records are datatypes.
- `datetime.now()` is an argument. `uuid4()` becomes the first unused key of a fixed sequence; the code only needs the key to be unused. The ISO 8601 week number (ISO 8601:2004 section 4.1.4) is an abstract function of the date.
- Prose: `strftime` output is a formatter parameter. Not modelled: the narrative of `_get_opening_hours`; `get_booking_title`; the titles listed by `ShowSelectedBookings`, `ConfirmDeleteSelectedBookings`, `ShowSearchParameters`, `AskSearchDeletion` and `ShowSelectedSearches`. These actions only format slots for display.
- `RetrievePlaceInfo` dispatch and the `_get_*` answers other than opening hours, children and price level (`_get_address`, `_get_contact`, `_get_rating`, `_get_website`, `get_allows_animals`, `_get_payment_options`, `_get_outdoor_seating`, `_get_reservable`, `_get_restroom`, `_get_vegetarian`, `_get_takeout`): each reads one Places field and formats it. `_get_parking_options` needs the network and float distances.
- `get_current_search` and the `Search` record of `rasa/actions/utils/_rasa.py`: they deserialise the selected search. The model passes the selected search's parameters and results in directly.
- Response-template arguments: the model records which response is uttered, and its arguments only for `AskSearchLocation`, whose argument is the point of the question.
- `ShowResults`: a place's details come from a `details` parameter, and only the numbering and the order of the listed results are stated.
- `SetSelectedBookings` turns the selection into `list(set(...))`. Its order is a CPython detail; the model keeps the indices in ascending order.
- `str.isnumeric` in the Alexa renderer is approximated by the ASCII digits.
- `utils.get_last_intents` is not defined in any file here. It is modelled as the intents of the latest message.
- A slot read as a list, a number or a place that holds another type gives `Err(TypeError)` whatever Python would raise. For example, `merge_locations` on a missing previous text would raise AttributeError.
- The actions other than `CreateBooking` are not wrapped in `RasaUtils.Guarded` one by one: each raises, if at all, before it utters anything, so its `Err` together with `HandleActionExceptions` is the whole reply. `BookingActions.RunCreateBooking` wraps the one action that utters first.
- SearchActions.FormParameters: an optional search slot (place type, name, open-now, meal, cuisine, activity, price range, quality) holding a value of another type is read as `None`, where Python stores the value unchanged in the parameters.
- Strings.ToLower: folds only the ASCII letters A-Z, where `str.lower()` folds every Unicode letter.
- The components' `process` loops mutate each message in place. If a later message fails, the earlier ones have already changed; the model returns either the whole new batch or the error.
- SemanticChecker: the entity fields the checker sets other than `correct` (the template and the definitions), and `add_processor_name`, are not modelled. `create`, `required_packages` and `get_default_config` only pass configuration along.
- SpellChecker.Languages: returns a set, because `list(set(...))` fixes no order.
- SemanticChecker.Languages: returns a set, for the same reason.
- Db: `__setitem__` is `set`, and `__contains__` is the predicate `Contains` used in the contracts.
- Action `name` methods, the `run` wrappers that only call another method, the `get_kv_store` singletons, `_guards.py` (slot validators that set the value back unchanged), `_constants.py`, `_maps.py`, `records/_booking.py` (reused as a datatype), the `__init__.py` files and `SearchData`: identity code or declarations.
- Two inconsistencies in the code are kept as written, each file modelled on its own terms. `rasa/actions/utils/__init__.py` exports the `_db.py` store, while the actions call `_kv_store.py`'s methods. `rasa/actions/__init__.py` imports names that `_search_history.py` does not define.

## Findings

| source | as written | input that shows it | evidently intended | confidence | as-written member | corrected member |
|---|---|---|---|---|---|---|
| rasa/actions/_booking.py:61-65 | a booking is "far" when `date.day > today.day + 28`, which compares only days of the month | today 2024-01-01: 2024-01-31 is refused as far, while 2024-06-15 is accepted | refuse dates more than 28 days after today | high; not executed | BookingActions.FarAsWrittenIsNotMonotone | BookingActions.FarIsMonotone |
| rasa/actions/utils/_rasa.py:113-115 | a role or group filter applies only when it is non-empty, so `role=""` keeps every role | an entity with role "guest", filtered with role "" | the docstring at lines 101-105: an entity matches only if its role equals the given one | medium; not executed | RasaUtils.EmptyRoleFilterIgnored | RasaUtils.GetEntitiesDocumented |
| rasa/actions/_info.py:462-464 | an all-day period sets `msg = "all day"`, which discards "on <day>, <name> is open " | a Monday whose only period is (None, None) | append "all day" to the sentence | high; not executed | Info.AllDayLosesTheDay | Info.IntendedAllDayNamesTheDay |
| rasa/actions/_search.py:129-154 | `if fill_user_location:` tests a two-element list, which is always true | user location set to home; the message "Rome" with intent inform_location, and one place found | `if any(fill_user_location):` | high; not executed | SearchActions.SetterAsWrittenOverwritesUserLocation | SearchActions.UserLocationKeptUnlessMeant |
