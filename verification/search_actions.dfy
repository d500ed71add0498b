/** The search actions of `actions/_search.py`: the search form (its required
    slots and the intent-driven setters), the lifecycle that opens, creates and
    cancels a search in the search history, running a search, and re-ranking
    its results. The Places API is a parameter `find` from search parameters
    to results. */
module SearchActions {
  import opened Wrappers
  import opened Strings
  import opened Seqs
  import opened Places
  import opened Records
  import opened Keys
  import opened KvStore
  import opened RasaUtils
  import opened History
  import SearchUtils
  import LocationMerge
  import Grammar

  /** How many results a page shows. */
  const PageSize: nat := 5

  const HistorySlot: string := "search_history"
  const SelectedSlot: string := "selected_searches"
  const ResultsSlot: string := "selected_results"
  const LocationSlot: string := "search_location"
  const LocationErrorSlot: string := "search_location_error"
  const PlaceTypeSlot: string := "search_place_type"
  const PlaceTypeErrorSlot: string := "search_place_type_error"
  const PlaceNameSlot: string := "search_place_name"
  const OpenNowSlot: string := "search_open_now"
  const MealTypeSlot: string := "search_meal_type"
  const CuisineTypeSlot: string := "search_cuisine_type"
  const ActivitySlot: string := "search_activity"
  const PriceRangeSlot: string := "search_price_range"
  const QualitySlot: string := "search_quality"
  const SuggestSlot: string := "suggest_booking"

  /** The slots of the search form, all cleared by a new search. */
  const FormSlots: seq<string> := [LocationSlot, LocationErrorSlot, PlaceTypeSlot, PlaceTypeErrorSlot,
                                   PlaceNameSlot, OpenNowSlot, MealTypeSlot, CuisineTypeSlot,
                                   ActivitySlot, PriceRangeSlot, QualitySlot]

  /** Every slot of the search form set to nothing, in the form's order. */
  function ClearedForm(): (es: seq<Event>)
    ensures |es| == |FormSlots|
    ensures forall k :: 0 <= k < |FormSlots| ==> es[k] == SlotSet(FormSlots[k], Null)
  {
    seq(|FormSlots|, k requires 0 <= k < |FormSlots| => SlotSet(FormSlots[k], Null))
  }

  /** The slots any one of which makes the place type unnecessary. */
  const AlternativeSlots: seq<string> := [ActivitySlot, MealTypeSlot, CuisineTypeSlot, PlaceTypeSlot, PlaceNameSlot]

  // ------------------------------------------------------------------------
  // Slot values of the search parameters
  // ------------------------------------------------------------------------

  function TextOf(v: Value): Option<string> {
    if v.Text? then Some(v.s) else None
  }

  function TextValue(o: Option<string>): (v: Value)
    ensures TextOf(v) == o
    ensures v == Null <==> o.None?
  {
    if o.Some? then Text(o.value) else Null
  }

  function BoolOf(v: Value): Option<bool> {
    if v.Bool? then Some(v.b) else None
  }

  function BoolValue(o: Option<bool>): (v: Value)
    ensures BoolOf(v) == o
    ensures v == Null <==> o.None?
  {
    if o.Some? then Bool(o.value) else Null
  }

  function ActivityOf(v: Value): Option<Activity> {
    match v
    case Text("eat") => Some(Eat)
    case Text("drink") => Some(Drink)
    case _ => None
  }

  function ActivityValue(o: Option<Activity>): (v: Value)
    ensures ActivityOf(v) == o
    ensures v == Null <==> o.None?
  {
    match o
    case None => Null
    case Some(Eat) => Text("eat")
    case Some(Drink) => Text("drink")
  }

  function PriceRangeOf(v: Value): Option<PriceRange> {
    match v
    case Text("any") => Some(AnyPrice)
    case Text("inexpensive") => Some(InexpensiveRange)
    case Text("moderate") => Some(ModerateRange)
    case Text("expensive") => Some(ExpensiveRange)
    case _ => None
  }

  function PriceRangeValue(o: Option<PriceRange>): (v: Value)
    ensures PriceRangeOf(v) == o
    ensures v == Null <==> o.None?
  {
    match o
    case None => Null
    case Some(AnyPrice) => Text("any")
    case Some(InexpensiveRange) => Text("inexpensive")
    case Some(ModerateRange) => Text("moderate")
    case Some(ExpensiveRange) => Text("expensive")
  }

  function QualityOf(v: Value): Option<Quality> {
    match v
    case Text("any") => Some(AnyQuality)
    case Text("moderate") => Some(ModerateQuality)
    case Text("excellent") => Some(ExcellentQuality)
    case _ => None
  }

  function QualityValue(o: Option<Quality>): (v: Value)
    ensures QualityOf(v) == o
    ensures v == Null <==> o.None?
  {
    match o
    case None => Null
    case Some(AnyQuality) => Text("any")
    case Some(ModerateQuality) => Text("moderate")
    case Some(ExcellentQuality) => Text("excellent")
  }

  // ------------------------------------------------------------------------
  // The search form
  // ------------------------------------------------------------------------

  /** `required_slots`: the place type is asked for only when none of the
      alternative slots is set. */
  function RequiredSlots(slots: Slots): (r: seq<string>)
    ensures r == [LocationSlot] <==> exists k :: 0 <= k < |AlternativeSlots| && GetSlot(slots, AlternativeSlots[k], Null) != Null
    ensures r == [LocationSlot] || r == [PlaceTypeSlot, LocationSlot]
  {
    if exists k :: 0 <= k < |AlternativeSlots| && GetSlot(slots, AlternativeSlots[k], Null) != Null then [LocationSlot]
    else [PlaceTypeSlot, LocationSlot]
  }

  /** The first item `f` maps to something, and what it maps to. */
  function FirstSome<T(==)>(xs: seq<string>, f: string -> Option<T>): (r: Option<T>)
    ensures r.None? <==> forall k :: 0 <= k < |xs| ==> f(xs[k]).None?
    ensures r.Some? ==> exists k :: 0 <= k < |xs| && f(xs[k]) == r && forall j :: 0 <= j < k ==> f(xs[j]).None?
    decreases |xs|
  {
    if |xs| == 0 then None
    else if f(xs[0]).Some? then f(xs[0])
    else
      var rest := FirstSome(xs[1..], f);
      assert forall j :: 1 <= j < |xs| ==> xs[j] == xs[1..][j - 1];
      if rest.Some? then
        var k :| 0 <= k < |xs[1..]| && f(xs[1..][k]) == rest && forall j :: 0 <= j < k ==> f(xs[1..][j]).None?;
        assert f(xs[k + 1]) == rest;
        rest
      else rest
  }

  /** The last item `f` maps to something, and what it maps to. */
  function LastSome<T(==)>(xs: seq<string>, f: string -> Option<T>): (r: Option<T>)
    ensures r.None? <==> forall k :: 0 <= k < |xs| ==> f(xs[k]).None?
    ensures r.Some? ==> exists k :: 0 <= k < |xs| && f(xs[k]) == r && forall j :: k < j < |xs| ==> f(xs[j]).None?
    decreases |xs|
  {
    if |xs| == 0 then None
    else if f(xs[|xs| - 1]).Some? then f(xs[|xs| - 1])
    else
      var rest := LastSome(xs[..|xs| - 1], f);
      assert forall j :: 0 <= j < |xs| - 1 ==> xs[j] == xs[..|xs| - 1][j];
      rest
  }

  /** An intent ending in "now" asks for places open now. */
  function OpenNowOfIntent(intent: string): Option<bool> {
    if EndsWith(intent, "now") then Some(true) else None
  }

  /** An intent mentioning eating or drinking, eating tested first. */
  function ActivityOfIntent(intent: string): Option<Activity> {
    if Contains(intent, "eat") then Some(Eat)
    else if Contains(intent, "drink") then Some(Drink)
    else None
  }

  function PriceRangeOfIntent(intent: string): Option<PriceRange> {
    match intent
    case "inform_price_range_any" => Some(AnyPrice)
    case "inform_price_range_expensive" => Some(ExpensiveRange)
    case "inform_price_range_moderate" => Some(ModerateRange)
    case "inform_price_range_inexpensive" => Some(InexpensiveRange)
    case _ => None
  }

  function QualityOfIntent(intent: string): Option<Quality> {
    match intent
    case "inform_quality_any" => Some(AnyQuality)
    case "inform_quality_excellent" => Some(ExcellentQuality)
    case "inform_quality_moderate" => Some(ModerateQuality)
    case _ => None
  }

  /** `action_set_search_open_now`: set only when some intent ends in "now". */
  function SetSearchOpenNow(m: Message): (r: seq<Event>)
    ensures r == [] <==> forall k :: 0 <= k < |GetIntents(m)| ==> !EndsWith(GetIntents(m)[k], "now")
    ensures r != [] ==> r == [SlotSet(OpenNowSlot, Bool(true))]
  {
    match FirstSome(GetIntents(m), OpenNowOfIntent)
    case None => []
    case Some(b) => [SlotSet(OpenNowSlot, Bool(b))]
  }

  /** `action_set_search_activity`: the first intent that mentions an
      activity decides. */
  function SetSearchActivity(m: Message): (r: seq<Event>)
    ensures r == [] <==> FirstSome(GetIntents(m), ActivityOfIntent).None?
    ensures r != [] ==> r == [SlotSet(ActivitySlot, ActivityValue(FirstSome(GetIntents(m), ActivityOfIntent)))]
  {
    var a := FirstSome(GetIntents(m), ActivityOfIntent);
    if a.None? then [] else [SlotSet(ActivitySlot, ActivityValue(a))]
  }

  /** `action_set_search_price_range`: the loop has no `break`, so the last
      price-range intent decides. */
  function SetSearchPriceRange(m: Message): (r: seq<Event>)
    ensures r == [] <==> LastSome(GetIntents(m), PriceRangeOfIntent).None?
    ensures r != [] ==> r == [SlotSet(PriceRangeSlot, PriceRangeValue(LastSome(GetIntents(m), PriceRangeOfIntent)))]
  {
    var p := LastSome(GetIntents(m), PriceRangeOfIntent);
    if p.None? then [] else [SlotSet(PriceRangeSlot, PriceRangeValue(p))]
  }

  /** `action_set_search_quality`: the last quality intent decides. */
  function SetSearchQuality(m: Message): (r: seq<Event>)
    ensures r == [] <==> LastSome(GetIntents(m), QualityOfIntent).None?
    ensures r != [] ==> r == [SlotSet(QualitySlot, QualityValue(LastSome(GetIntents(m), QualityOfIntent)))]
  {
    var q := LastSome(GetIntents(m), QualityOfIntent);
    if q.None? then [] else [SlotSet(QualitySlot, QualityValue(q))]
  }

  /** The intents of a message whose intent name joins `parts` with '+'. */
  lemma IntentsOfJoin(parts: seq<string>)
    requires |parts| >= 1 && forall k :: 0 <= k < |parts| ==> '+' !in parts[k]
    ensures GetIntents(Message(Some(JoinWith("+", parts)), [], "")) == parts
  {
    SplitOnJoin(parts, '+');
  }

  /** The intents of a message naming two intents. */
  lemma IntentsOfTwo(a: string, b: string)
    requires '+' !in a && '+' !in b
    ensures GetIntents(Message(Some(a + "+" + b), [], "")) == [a, b]
  {
    var parts := [a, b];
    assert parts[1..] == [b];
    assert JoinWith("+", parts) == a + "+" + b;
    IntentsOfJoin(parts);
  }

  lemma DrinkIntent()
    ensures ActivityOfIntent("inform_drink") == Some(Drink)
  {
    InformDrinkLacksEat();
    InformDrinkHasDrink();
  }

  lemma InformDrinkLacksEat()
    ensures !Contains("inform_drink", "eat")
  {
    assert 'e' !in "inform_drink";
    MissingCharNotContained("inform_drink", "eat", 'e');
  }

  lemma InformDrinkHasDrink()
    ensures Contains("inform_drink", "drink")
  {
    assert "drink" <= "inform_drink"[7..];
    ContainsSuffixOf("inform_drink", 7, "drink");
  }

  /** The intents of the message "inform_drink+inform_eat". */
  lemma DrinkThenEatIntents()
    ensures GetIntents(Message(Some("inform_drink+inform_eat"), [], "")) == ["inform_drink", "inform_eat"]
  {
    var a, b := "inform_drink", "inform_eat";
    IntentsOfTwo(a, b);
    assert a + "+" + b == "inform_drink+inform_eat";
  }

  /** With a drink intent before an eat intent the first one decides, so the
      activity is drinking. */
  lemma FirstActivityWins()
    ensures SetSearchActivity(Message(Some("inform_drink+inform_eat"), [], ""))
            == [SlotSet(ActivitySlot, Text("drink"))]
  {
    DrinkThenEatIntents();
    DrinkIntent();
    assert FirstSome(["inform_drink", "inform_eat"], ActivityOfIntent) == Some(Drink);
  }

  /** An intent mentioning both activities counts as eating. */
  lemma EatingIsTestedFirst()
    ensures SetSearchActivity(Message(Some("eat_and_drink"), [], ""))
            == [SlotSet(ActivitySlot, Text("eat"))]
  {
    IntentsOfJoin(["eat_and_drink"]);
    assert Contains("eat_and_drink", "eat");
  }

  /** The intents of the message naming two price ranges. */
  lemma TwoPriceRangeIntents()
    ensures GetIntents(Message(Some("inform_price_range_expensive+inform_price_range_moderate"), [], ""))
            == ["inform_price_range_expensive", "inform_price_range_moderate"]
  {
    PriceRangeIntentsHaveNoPlus();
    PriceRangeIntentsJoined();
    IntentsOfTwo("inform_price_range_expensive", "inform_price_range_moderate");
  }

  lemma PriceRangeIntentsHaveNoPlus()
    ensures '+' !in "inform_price_range_expensive" && '+' !in "inform_price_range_moderate"
  {
  }

  lemma PriceRangeIntentsJoined()
    ensures "inform_price_range_expensive" + "+" + "inform_price_range_moderate"
            == "inform_price_range_expensive+inform_price_range_moderate"
  {
  }

  /** Of two price-range intents the later one is kept. */
  lemma LastPriceRangeWins()
    ensures SetSearchPriceRange(Message(Some("inform_price_range_expensive+inform_price_range_moderate"), [], ""))
            == [SlotSet(PriceRangeSlot, Text("moderate"))]
  {
    var m := Message(Some("inform_price_range_expensive+inform_price_range_moderate"), [], "");
    var parts := ["inform_price_range_expensive", "inform_price_range_moderate"];
    TwoPriceRangeIntents();
    ModeratePriceIntent();
    LastOfTwo(parts, PriceRangeOfIntent);
    assert LastSome(GetIntents(m), PriceRangeOfIntent) == Some(ModerateRange);
    ModerateValue();
  }

  lemma ModerateValue()
    ensures PriceRangeValue(Some(ModerateRange)) == Text("moderate")
  {
  }

  lemma ModeratePriceIntent()
    ensures PriceRangeOfIntent("inform_price_range_moderate") == Some(ModerateRange)
  {
  }

  /** Of two items the second decides when it maps to something. */
  lemma LastOfTwo<T>(xs: seq<string>, f: string -> Option<T>)
    requires |xs| == 2 && f(xs[1]).Some?
    ensures LastSome(xs, f) == f(xs[1])
  {
  }

  /** A pattern found at some offset is contained. */
  lemma {:induction false} ContainsSuffixOf(s: string, i: nat, pat: string)
    requires i <= |s| && pat <= s[i..]
    ensures Contains(s, pat)
    decreases i
  {
    if i > 0 {
      assert s[1..][i - 1..] == s[i..];
      ContainsSuffixOf(s[1..], i - 1, pat);
    }
  }

  /** `action_set_search_place_type`: the first "place_type" entity is stored
      unless the semantic checker flagged it, in which case the error is set. */
  function SetSearchPlaceType(m: Message): (r: seq<Event>)
    ensures |GetEntitiesDocumented(m, "place_type", None, None)| == 0 ==> r == []
    ensures |GetEntitiesDocumented(m, "place_type", None, None)| > 0 ==>
              var e := GetEntitiesDocumented(m, "place_type", None, None)[0];
              && |r| == 2
              && r[0] == SlotSet(PlaceTypeSlot, if e.correct then Text(e.value) else Null)
              && r[1] == SlotSet(PlaceTypeErrorSlot, Bool(!e.correct))
  {
    var es := GetEntitiesDocumented(m, "place_type", None, None);
    if |es| == 0 then []
    else if es[0].correct then [SlotSet(PlaceTypeSlot, Text(es[0].value)), SlotSet(PlaceTypeErrorSlot, Bool(false))]
    else [SlotSet(PlaceTypeSlot, Null), SlotSet(PlaceTypeErrorSlot, Bool(true))]
  }

  /** `action_ask_search_place_type`. */
  function AskSearchPlaceType(error: Value): (r: string)
    ensures r == "utter_invalid_place_type" <==> IsTruthy(error)
    ensures r == "utter_ask_place_type" <==> !IsTruthy(error)
  {
    if IsTruthy(error) then "utter_invalid_place_type" else "utter_ask_place_type"
  }

  /** After a place type is given, the question that follows complains
      exactly when the type was flagged as wrong. */
  lemma FlaggedPlaceTypeIsQuestioned(slots: Slots, m: Message)
    requires |GetEntitiesDocumented(m, "place_type", None, None)| > 0
    ensures var after := ApplyEvents(slots, SetSearchPlaceType(m));
            var e := GetEntitiesDocumented(m, "place_type", None, None)[0];
            AskSearchPlaceType(GetSlot(after, PlaceTypeErrorSlot, Null))
            == (if e.correct then "utter_ask_place_type" else "utter_invalid_place_type")
  {
    LastSlotSetWins(slots, SetSearchPlaceType(m), 1);
  }

  // ------------------------------------------------------------------------
  // The search location
  // ------------------------------------------------------------------------

  const UserLocationSlot: string := "user_location"

  /** `find_location`: the places a text may denote, looked up near the
      user's own location when that is known. */
  type LocationFinder = (string, Option<Place>) -> seq<Place>

  /** The issues already recorded in the location error slot, which reads as
      an empty list when unset. */
  function PreviousIssues(slots: Slots): Result<seq<LocationIssue>> {
    match GetSlot(slots, LocationErrorSlot, LocationIssues([]))
    case LocationIssues(issues) => Ok(issues)
    case _ => Err(TypeError)
  }

  /** The text looked up for a location entity: after an ambiguous answer the
      earlier text is merged with the new one. */
  function LocationQuery(issues: seq<LocationIssue>, entity: string, score: LocationMerge.Scorer,
                         procScore: LocationMerge.Scorer): Result<string> {
    if |issues| > 0 && issues[|issues| - 1].reason == "ambiguous" then
      match issues[|issues| - 1].location
      case None => Err(TypeError)
      case Some(previous) => LocationMerge.MergeLocations([previous, entity], score, procScore)
    else Ok(entity)
  }

  /** The user's own location as a place: unset is None, and anything but a
      place fails to deserialise. */
  function UserPlace(v: Value): Result<Option<Place>> {
    if !IsTruthy(v) then Ok(None)
    else if v.PlaceValue? then Ok(Some(v.place))
    else Err(TypeError)
  }

  /** The text looked up for the message's first location entity, and the
      places it denotes. */
  function LocationCandidates(slots: Slots, m: Message, find: LocationFinder, score: LocationMerge.Scorer,
                              procScore: LocationMerge.Scorer): Result<(string, seq<Place>)>
    requires |EntityValues(m, "location")| > 0
  {
    var issues :- PreviousIssues(slots);
    var query :- LocationQuery(issues, EntityValues(m, "location")[0], score, procScore);
    var near :- UserPlace(GetSlot(slots, UserLocationSlot, Null));
    Ok((query, find(query, near)))
  }

  /** The two reasons to remember a found place as the user's own location:
      the user said it is where they are, or their location had been asked
      for because it was unknown. */
  function OwnLocationFlags(slots: Slots, m: Message): seq<bool> {
    ["inform_my_location" in GetIntents(m),
     PreviousIssues(slots).Ok? && exists k :: 0 <= k < |PreviousIssues(slots).value|
                                             && PreviousIssues(slots).value[k].reason == "unknown_user_location"]
  }

  /** What `action_set_search_location` decides. A found place carries the
      list of reasons the action builds for remembering it. */
  datatype LocationStep =
    | NoChange
    | SetLocation(location: Value, error: Value)
    | Found(place: Place, flags: seq<bool>)

  function DecideLocation(slots: Slots, m: Message, find: LocationFinder, score: LocationMerge.Scorer,
                          procScore: LocationMerge.Scorer): Result<LocationStep> {
    var userLocation := GetSlot(slots, UserLocationSlot, Null);
    if SearchUtils.IsUserLocation(m.text) then
      if userLocation == Null then
        Ok(SetLocation(Null, LocationIssues([LocationIssue("unknown_user_location", None)])))
      else Ok(SetLocation(userLocation, Null))
    else if |EntityValues(m, "location")| == 0 then
      if IsTruthy(GetSlot(slots, LocationSlot, Null)) || IsTruthy(GetSlot(slots, LocationErrorSlot, Null)) then
        Ok(NoChange)
      else if IsTruthy(GetSlot(slots, OpenNowSlot, Null)) && IsTruthy(userLocation) then
        Ok(SetLocation(userLocation, Null))
      else Ok(NoChange)
    else
      var found :- LocationCandidates(slots, m, find, score, procScore);
      var (query, places) := found;
      if |places| != 1 then
        var reason := if |places| > 0 then "ambiguous" else "not_found";
        Ok(SetLocation(Null, LocationIssues(PreviousIssues(slots).value + [LocationIssue(reason, Some(query))])))
      else Ok(Found(places[0], OwnLocationFlags(slots, m)))
  }

  /** The events of a decision; a found place is also stored as the user's
      location when `remember` holds. */
  function LocationEvents(step: LocationStep, remember: bool): seq<Event> {
    match step
    case NoChange => []
    case SetLocation(location, error) => [SlotSet(LocationSlot, location), SlotSet(LocationErrorSlot, error)]
    case Found(place, _) =>
      [SlotSet(LocationSlot, PlaceValue(place)), SlotSet(LocationErrorSlot, Null)]
      + (if remember then [SlotSet(UserLocationSlot, PlaceValue(place))] else [])
  }

  /** `action_set_search_location` as the source writes it: the test
      `if fill_user_location:` is on a two-element list, which Python always
      finds true, so every place found also replaces the user's location. */
  function SetSearchLocationAsWritten(slots: Slots, m: Message, find: LocationFinder, score: LocationMerge.Scorer,
                                      procScore: LocationMerge.Scorer): (r: Result<seq<Event>>)
    ensures r.Ok? <==> DecideLocation(slots, m, find, score, procScore).Ok?
    ensures r.Ok? && DecideLocation(slots, m, find, score, procScore).value.Found? ==>
              var place := DecideLocation(slots, m, find, score, procScore).value.place;
              r.value == [SlotSet(LocationSlot, PlaceValue(place)), SlotSet(LocationErrorSlot, Null),
                          SlotSet(UserLocationSlot, PlaceValue(place))]
  {
    var step :- DecideLocation(slots, m, find, score, procScore);
    Ok(LocationEvents(step, step.Found? && |step.flags| > 0))
  }

  /** `action_set_search_location` as evidently intended. A phrase such as
      "where I am" uses the user's location, or records that it is unknown.
      Without a location entity the slot is only filled from the user's
      location when an open-now search has no location and no error yet.
      Otherwise the entity is looked up (merged with the earlier text after
      an ambiguous answer): a single place is stored, and remembered as the
      user's location only when one of the two reasons holds; none or
      several places clear the location and record why. */
  function SetSearchLocation(slots: Slots, m: Message, find: LocationFinder, score: LocationMerge.Scorer,
                             procScore: LocationMerge.Scorer): (r: Result<seq<Event>>)
    ensures SearchUtils.IsUserLocation(m.text) ==>
              r == Ok(if GetSlot(slots, UserLocationSlot, Null) == Null
                      then [SlotSet(LocationSlot, Null),
                            SlotSet(LocationErrorSlot, LocationIssues([LocationIssue("unknown_user_location", None)]))]
                      else [SlotSet(LocationSlot, GetSlot(slots, UserLocationSlot, Null)), SlotSet(LocationErrorSlot, Null)])
    ensures !SearchUtils.IsUserLocation(m.text) && |EntityValues(m, "location")| == 0 ==>
              && r.Ok?
              && (r.value != [] <==> && !IsTruthy(GetSlot(slots, LocationSlot, Null))
                                     && !IsTruthy(GetSlot(slots, LocationErrorSlot, Null))
                                     && IsTruthy(GetSlot(slots, OpenNowSlot, Null))
                                     && IsTruthy(GetSlot(slots, UserLocationSlot, Null)))
              && (r.value != [] ==>
                    r.value == [SlotSet(LocationSlot, GetSlot(slots, UserLocationSlot, Null)), SlotSet(LocationErrorSlot, Null)])
    ensures !SearchUtils.IsUserLocation(m.text) && |EntityValues(m, "location")| > 0 ==>
              var found := LocationCandidates(slots, m, find, score, procScore);
              && (r.Ok? <==> found.Ok?)
              && (r.Err? ==> r.error == TypeError)
              && (r.Ok? && |found.value.1| == 1 ==>
                    var place := found.value.1[0];
                    && 2 <= |r.value| <= 3
                    && r.value[..2] == [SlotSet(LocationSlot, PlaceValue(place)), SlotSet(LocationErrorSlot, Null)]
                    && (|r.value| == 3 <==> true in OwnLocationFlags(slots, m))
                    && (|r.value| == 3 ==> r.value[2] == SlotSet(UserLocationSlot, PlaceValue(place))))
              && (r.Ok? && |found.value.1| != 1 ==>
                    var reason := if |found.value.1| == 0 then "not_found" else "ambiguous";
                    r.value == [SlotSet(LocationSlot, Null),
                                SlotSet(LocationErrorSlot, LocationIssues(PreviousIssues(slots).value
                                                                          + [LocationIssue(reason, Some(found.value.0))]))])
  {
    LookupDecides(slots, m, find, score, procScore);
    var step :- DecideLocation(slots, m, find, score, procScore);
    Ok(LocationEvents(step, step.Found? && true in step.flags))
  }

  /** With a location entity and no phrase for the user's location, the
      decision follows the lookup: one place is found, anything else is an
      issue. */
  lemma LookupDecides(slots: Slots, m: Message, find: LocationFinder, score: LocationMerge.Scorer,
                      procScore: LocationMerge.Scorer)
    ensures !SearchUtils.IsUserLocation(m.text) && |EntityValues(m, "location")| > 0 ==>
              var found := LocationCandidates(slots, m, find, score, procScore);
              var step := DecideLocation(slots, m, find, score, procScore);
              && (step.Ok? <==> found.Ok?)
              && (step.Err? ==> step.error == TypeError)
              && (found.Ok? && |found.value.1| == 1 ==> step.value == Found(found.value.1[0], OwnLocationFlags(slots, m)))
              && (found.Ok? && |found.value.1| != 1 ==>
                    var reason := if |found.value.1| == 0 then "not_found" else "ambiguous";
                    step.value == SetLocation(Null, LocationIssues(PreviousIssues(slots).value
                                                                   + [LocationIssue(reason, Some(found.value.0))])))
  {
  }

  /** The user's location changes only when the user said a place is where
      they are, or had been asked for their location. */
  lemma UserLocationKeptUnlessMeant(slots: Slots, m: Message, find: LocationFinder, score: LocationMerge.Scorer,
                                    procScore: LocationMerge.Scorer)
    requires SetSearchLocation(slots, m, find, score, procScore).Ok?
    requires true !in OwnLocationFlags(slots, m)
    ensures var after := ApplyEvents(slots, SetSearchLocation(slots, m, find, score, procScore).value);
            GetSlot(after, UserLocationSlot, Null) == GetSlot(slots, UserLocationSlot, Null)
  {
    var events := SetSearchLocation(slots, m, find, score, procScore).value;
    assert forall j :: 0 <= j < |events| ==> events[j].SlotSet? && events[j].slot != UserLocationSlot;
    UntouchedSlot(slots, events, UserLocationSlot);
  }

  /** A place for the counterexample below. */
  function Spot(name: string): Place {
    Place(Some(name), None, None, None, None, None, None)
  }

  /** The message "Rome" naming a location, with an ordinary intent. */
  function RomeMessage(): Message {
    Message(Some("inform_location"), [Entity("location", None, None, "Rome", true)], "Rome")
  }

  /** A lookup that finds Rome whatever it is asked. */
  function FindRome(query: string, near: Option<Place>): seq<Place> {
    [Spot("Rome")]
  }

  function NoScore(a: string, b: string): int {
    0
  }

  /** What the action reads from the message "Rome": no phrase for the
      user's location, one ordinary intent and one location. */
  lemma RomeText()
    ensures !SearchUtils.IsUserLocation(RomeMessage().text)
  {
    SearchUtils.ShortTextIsNotUserLocation("Rome");
  }

  lemma RomeIntents()
    ensures GetIntents(RomeMessage()) == ["inform_location"]
  {
    IntentsOfJoin(["inform_location"]);
    assert JoinWith("+", ["inform_location"]) == "inform_location";
  }

  lemma RomeEntities()
    ensures EntityValues(RomeMessage(), "location") == ["Rome"]
  {
    var m := RomeMessage();
    var es := GetEntitiesDocumented(m, "location", None, None);
    assert MatchesDocumented(m.entities[0], "location", None, None);
    assert es == m.entities;
  }

  /** The slots of a user at home. */
  function AtHome(): Slots {
    map[UserLocationSlot := PlaceValue(Spot("Home"))]
  }

  lemma RomeCandidates()
    ensures LocationCandidates(AtHome(), RomeMessage(), FindRome, NoScore, NoScore) == Ok(("Rome", [Spot("Rome")]))
  {
    RomeEntities();
    assert PreviousIssues(AtHome()) == Ok([]);
    assert UserPlace(GetSlot(AtHome(), UserLocationSlot, Null)) == Ok(Some(Spot("Home")));
  }

  lemma RomeFlags()
    ensures OwnLocationFlags(AtHome(), RomeMessage()) == [false, false]
  {
    RomeIntents();
    assert |"inform_my_location"| != |"inform_location"|;
    assert "inform_my_location" !in GetIntents(RomeMessage());
    assert GetSlot(AtHome(), LocationErrorSlot, LocationIssues([])) == LocationIssues([]);
    assert PreviousIssues(AtHome()) == Ok([]);
  }

  /** For a user at home, the message "Rome" finds Rome, with neither reason
      to remember it as the user's location. */
  lemma RomeIsFound()
    ensures DecideLocation(AtHome(), RomeMessage(), FindRome, NoScore, NoScore) == Ok(Found(Spot("Rome"), [false, false]))
  {
    RomeText();
    RomeEntities();
    RomeCandidates();
    RomeFlags();
  }

  /** A user at home asks for places in Rome, and Rome is found. The code as
      written then also stores Rome as the user's location; the intended
      action leaves the user's location alone. */
  lemma SetterAsWrittenOverwritesUserLocation()
    ensures var slots := AtHome();
            && SetSearchLocationAsWritten(slots, RomeMessage(), FindRome, NoScore, NoScore)
               == Ok([SlotSet(LocationSlot, PlaceValue(Spot("Rome"))), SlotSet(LocationErrorSlot, Null),
                      SlotSet(UserLocationSlot, PlaceValue(Spot("Rome")))])
            && SetSearchLocation(slots, RomeMessage(), FindRome, NoScore, NoScore)
               == Ok([SlotSet(LocationSlot, PlaceValue(Spot("Rome"))), SlotSet(LocationErrorSlot, Null)])
  {
    RomeIsFound();
    var step := Found(Spot("Rome"), [false, false]);
    EventsOfStep(AtHome(), RomeMessage(), FindRome, NoScore, NoScore);
    var rome := PlaceValue(Spot("Rome"));
    var both := [SlotSet(LocationSlot, rome), SlotSet(LocationErrorSlot, Null)];
    assert LocationEvents(step, false) == both + [] == both;
    assert LocationEvents(step, true) == both + [SlotSet(UserLocationSlot, rome)];
  }

  /** Both readings of the action turn the same decision into events, and
      differ only in whether a found place is remembered. */
  lemma EventsOfStep(slots: Slots, m: Message, find: LocationFinder, score: LocationMerge.Scorer,
                     procScore: LocationMerge.Scorer)
    requires DecideLocation(slots, m, find, score, procScore).Ok?
    ensures var step := DecideLocation(slots, m, find, score, procScore).value;
            && SetSearchLocation(slots, m, find, score, procScore)
               == Ok(LocationEvents(step, step.Found? && true in step.flags))
            && SetSearchLocationAsWritten(slots, m, find, score, procScore)
               == Ok(LocationEvents(step, step.Found? && |step.flags| > 0))
  {
  }

  /** A single place found makes the search form complete: its parameters can
      be built, at that place. */
  lemma FoundLocationCompletesForm(slots: Slots, m: Message, find: LocationFinder, score: LocationMerge.Scorer,
                                   procScore: LocationMerge.Scorer)
    requires !SearchUtils.IsUserLocation(m.text) && |EntityValues(m, "location")| > 0
    requires LocationCandidates(slots, m, find, score, procScore).Ok?
    requires |LocationCandidates(slots, m, find, score, procScore).value.1| == 1
    ensures var after := ApplyEvents(slots, SetSearchLocation(slots, m, find, score, procScore).value);
            FormParameters(after).Ok?
            && FormParameters(after).value.location == LocationCandidates(slots, m, find, score, procScore).value.1[0]
  {
    var events := SetSearchLocation(slots, m, find, score, procScore).value;
    LastSlotSetWins(slots, events, 0);
  }

  /** Setting the location and its error, and nothing else. */
  lemma LocationAndError(slots: Slots, location: Value, error: Value)
    ensures ApplyEvents(slots, [SlotSet(LocationSlot, location), SlotSet(LocationErrorSlot, error)])
            == slots[LocationSlot := location][LocationErrorSlot := error]
  {
    var events := [SlotSet(LocationSlot, location), SlotSet(LocationErrorSlot, error)];
    var first := [SlotSet(LocationSlot, location)];
    assert first[..0] == [];
    assert ApplyEvents(slots, first) == slots[LocationSlot := location];
    assert events[..1] == first;
  }

  /** A lookup that finds no place or several clears the location and adds
      the reason to the issues. */
  lemma UnresolvedLocationEvents(slots: Slots, m: Message, find: LocationFinder, score: LocationMerge.Scorer,
                                 procScore: LocationMerge.Scorer)
    requires !SearchUtils.IsUserLocation(m.text) && |EntityValues(m, "location")| > 0
    requires LocationCandidates(slots, m, find, score, procScore).Ok?
    requires |LocationCandidates(slots, m, find, score, procScore).value.1| != 1
    ensures var (query, places) := LocationCandidates(slots, m, find, score, procScore).value;
            var reason := if |places| == 0 then "not_found" else "ambiguous";
            SetSearchLocation(slots, m, find, score, procScore)
            == Ok([SlotSet(LocationSlot, Null),
                   SlotSet(LocationErrorSlot, LocationIssues(PreviousIssues(slots).value + [LocationIssue(reason, Some(query))]))])
  {
  }

  /** With the location cleared and issues recorded, the question follows
      the latest issue. */
  lemma AskAfterIssues(slots: Slots, issues: seq<LocationIssue>, singularNoun: string -> Option<string>,
                       pluralNoun: string -> string)
    requires |issues| > 0
    requires PlacesPhrase(slots, singularNoun, pluralNoun).Ok?
    ensures var after := ApplyEvents(slots, [SlotSet(LocationSlot, Null), SlotSet(LocationErrorSlot, LocationIssues(issues))]);
            var last := issues[|issues| - 1];
            AskSearchLocation(after, singularNoun, pluralNoun)
            == Ok(if last.reason == "unknown_user_location" then Prompt("utter_need_user_location", Null)
                  else if last.reason == "ambiguous" then Prompt("utter_ambiguous_location", OptionalText(last.location))
                  else Prompt("utter_location_not_found", OptionalText(last.location)))
  {
    LocationAndError(slots, Null, LocationIssues(issues));
    var after := slots[LocationSlot := Null][LocationErrorSlot := LocationIssues(issues)];
    assert PlacesPhrase(after, singularNoun, pluralNoun) == PlacesPhrase(slots, singularNoun, pluralNoun);
    assert GetSlot(after, LocationErrorSlot, Null) == LocationIssues(issues);
  }

  /** A place the user cannot pin down is asked about again: after a lookup
      that finds no place or several, the next question names the text looked
      up and says which of the two went wrong. */
  lemma LocationErrorIsExplained(slots: Slots, m: Message, find: LocationFinder, score: LocationMerge.Scorer,
                                 procScore: LocationMerge.Scorer, singularNoun: string -> Option<string>,
                                 pluralNoun: string -> string)
    requires !SearchUtils.IsUserLocation(m.text) && |EntityValues(m, "location")| > 0
    requires LocationCandidates(slots, m, find, score, procScore).Ok?
    requires |LocationCandidates(slots, m, find, score, procScore).value.1| != 1
    requires PlacesPhrase(slots, singularNoun, pluralNoun).Ok?
    ensures var (query, places) := LocationCandidates(slots, m, find, score, procScore).value;
            var after := ApplyEvents(slots, SetSearchLocation(slots, m, find, score, procScore).value);
            AskSearchLocation(after, singularNoun, pluralNoun)
            == Ok(Prompt(if |places| == 0 then "utter_location_not_found" else "utter_ambiguous_location", Text(query)))
  {
    var (query, places) := LocationCandidates(slots, m, find, score, procScore).value;
    var reason := if |places| == 0 then "not_found" else "ambiguous";
    var issues := PreviousIssues(slots).value + [LocationIssue(reason, Some(query))];
    UnresolvedLocationEvents(slots, m, find, score, procScore);
    AskAfterIssues(slots, issues, singularNoun, pluralNoun);
    assert issues[|issues| - 1] == LocationIssue(reason, Some(query));
  }

  /** A user without a known location who says "where I am" is asked for it. */
  lemma UnknownUserLocationIsAskedFor(slots: Slots, m: Message, find: LocationFinder, score: LocationMerge.Scorer,
                                      procScore: LocationMerge.Scorer, singularNoun: string -> Option<string>,
                                      pluralNoun: string -> string)
    requires SearchUtils.IsUserLocation(m.text) && GetSlot(slots, UserLocationSlot, Null) == Null
    requires PlacesPhrase(slots, singularNoun, pluralNoun).Ok?
    ensures var after := ApplyEvents(slots, SetSearchLocation(slots, m, find, score, procScore).value);
            AskSearchLocation(after, singularNoun, pluralNoun) == Ok(Prompt("utter_need_user_location", Null))
  {
    var issues := [LocationIssue("unknown_user_location", None)];
    AskAfterIssues(slots, issues, singularNoun, pluralNoun);
  }

  /** After an ambiguous answer, the next location the user gives is looked
      up merged with the ambiguous text, so the two narrow each other down. */
  lemma AmbiguityNarrowsTheQuery(slots: Slots, m: Message, next: Message, find: LocationFinder,
                                 score: LocationMerge.Scorer, procScore: LocationMerge.Scorer)
    requires !SearchUtils.IsUserLocation(m.text) && |EntityValues(m, "location")| > 0
    requires LocationCandidates(slots, m, find, score, procScore).Ok?
    requires |LocationCandidates(slots, m, find, score, procScore).value.1| > 1
    requires |EntityValues(next, "location")| > 0
    ensures var query := LocationCandidates(slots, m, find, score, procScore).value.0;
            var after := ApplyEvents(slots, SetSearchLocation(slots, m, find, score, procScore).value);
            && LocationCandidates(after, next, find, score, procScore).Ok?
            && LocationCandidates(after, next, find, score, procScore).value.0
               == JoinWith(" ", LocationMerge.MergeWords(score, procScore, Words(query),
                                                         Words(EntityValues(next, "location")[0])))
  {
    var query := LocationCandidates(slots, m, find, score, procScore).value.0;
    var issues := PreviousIssues(slots).value + [LocationIssue("ambiguous", Some(query))];
    UnresolvedLocationEvents(slots, m, find, score, procScore);
    LocationAndError(slots, Null, LocationIssues(issues));
    var after := slots[LocationSlot := Null][LocationErrorSlot := LocationIssues(issues)];
    assert GetSlot(after, UserLocationSlot, Null) == GetSlot(slots, UserLocationSlot, Null);
    assert PreviousIssues(after) == Ok(issues);
    assert LocationQuery(issues, EntityValues(next, "location")[0], score, procScore)
           == LocationMerge.MergeLocations([query, EntityValues(next, "location")[0]], score, procScore);
  }

  /** How the question names the places searched for: the plural of the
      place type, or a phrase for the activity. */
  function PlacesPhrase(slots: Slots, singularNoun: string -> Option<string>,
                        pluralNoun: string -> string): Result<string> {
    var placeType := GetSlot(slots, PlaceTypeSlot, Null);
    if IsTruthy(placeType) then
      if placeType.Text? then Ok(Grammar.Pluralize(placeType.s, singularNoun, pluralNoun)) else Err(TypeError)
    else if GetSlot(slots, ActivitySlot, Null) == Text("eat") then Ok("places to eat")
    else if GetSlot(slots, ActivitySlot, Null) == Text("drink") then Ok("places to have a drink")
    else Ok("places")
  }

  /** A response template and the value filling its one argument. */
  datatype Prompt = Prompt(response: string, argument: Value)

  function OptionalText(o: Option<string>): Value {
    match o
    case None => Null
    case Some(s) => Text(s)
  }

  /** `action_ask_search_location`. Without an earlier issue the question
      depends on the search: an open-now search asks for the user's location,
      a named place asks where that place is, and otherwise the places are
      named. With issues, the latest one decides: an unknown user location
      is asked for, and an ambiguous or unknown text is named back. */
  function AskSearchLocation(slots: Slots, singularNoun: string -> Option<string>,
                             pluralNoun: string -> string): (r: Result<Prompt>)
    ensures PlacesPhrase(slots, singularNoun, pluralNoun).Err? ==> r == Err(TypeError)
    ensures PlacesPhrase(slots, singularNoun, pluralNoun).Ok? && !IsTruthy(GetSlot(slots, LocationErrorSlot, Null)) ==>
              var phrase := PlacesPhrase(slots, singularNoun, pluralNoun).value;
              && r.Ok?
              && (r.value.response == "utter_ask_user_location" <==> IsTruthy(GetSlot(slots, OpenNowSlot, Null)))
              && (r.value.response == "utter_ask_location_place_name" <==>
                    !IsTruthy(GetSlot(slots, OpenNowSlot, Null)) && IsTruthy(GetSlot(slots, PlaceNameSlot, Null)))
              && (r.value.response in {"utter_ask_user_location", "utter_ask_location_place_name", "utter_ask_location"})
              && (r.value.response == "utter_ask_location_place_name" ==> r.value.argument == GetSlot(slots, PlaceNameSlot, Null))
              && (r.value.response != "utter_ask_location_place_name" ==> r.value.argument == Text(phrase))
    ensures PlacesPhrase(slots, singularNoun, pluralNoun).Ok? && IsTruthy(GetSlot(slots, LocationErrorSlot, Null)) ==>
              var error := GetSlot(slots, LocationErrorSlot, Null);
              && (r.Ok? <==> error.LocationIssues?)
              && (r.Err? ==> r.error == TypeError)
              && (r.Ok? ==>
                    var last := error.issues[|error.issues| - 1];
                    && (r.value == Prompt("utter_need_user_location", Null) <==> last.reason == "unknown_user_location")
                    && (last.reason == "ambiguous" ==> r.value == Prompt("utter_ambiguous_location", OptionalText(last.location)))
                    && (last.reason !in {"unknown_user_location", "ambiguous"} ==>
                          r.value == Prompt("utter_location_not_found", OptionalText(last.location))))
  {
    var phrase :- PlacesPhrase(slots, singularNoun, pluralNoun);
    var error := GetSlot(slots, LocationErrorSlot, Null);
    if !IsTruthy(error) then
      if IsTruthy(GetSlot(slots, OpenNowSlot, Null)) then Ok(Prompt("utter_ask_user_location", Text(phrase)))
      else if IsTruthy(GetSlot(slots, PlaceNameSlot, Null)) then
        Ok(Prompt("utter_ask_location_place_name", GetSlot(slots, PlaceNameSlot, Null)))
      else Ok(Prompt("utter_ask_location", Text(phrase)))
    else
      match error
      case LocationIssues(issues) =>
        var last := issues[|issues| - 1];
        if last.reason == "unknown_user_location" then Ok(Prompt("utter_need_user_location", Null))
        else if last.reason == "ambiguous" then Ok(Prompt("utter_ambiguous_location", OptionalText(last.location)))
        else Ok(Prompt("utter_location_not_found", OptionalText(last.location)))
      case _ => Err(TypeError)
  }

  // ------------------------------------------------------------------------
  // Lifecycle
  // ------------------------------------------------------------------------

  /** `store.get_search(history[selected_searches[0]])`. */
  function SearchAt(store: Kv, history: Entries, selected: seq<int>): (r: Result<SearchData>)
    ensures r.Ok? <==> SelectedEntry(history, selected).Ok?
                       && Lookup(store.searches, SelectedEntry(history, selected).value).Ok?
    ensures r.Ok? ==> r.value == store.searches[SelectedEntry(history, selected).value.value]
    ensures r.Err? ==> (r.error == IndexError <==> SelectedEntry(history, selected).Err?)
    ensures r.Err? ==> r.error == IndexError || r.error == KeyError
  {
    var entry :- SelectedEntry(history, selected);
    Lookup(store.searches, entry)
  }

  /** The form slots filled from a stored search. */
  function LoadEvents(p: SearchParameters): (r: seq<Event>)
    ensures |r| == |FormSlots| && forall k :: 0 <= k < |r| ==> r[k].SlotSet? && r[k].slot == FormSlots[k]
  {
    [SlotSet(LocationSlot, PlaceValue(p.location)),
     SlotSet(LocationErrorSlot, Null),
     SlotSet(PlaceTypeSlot, TextValue(p.placeType)),
     SlotSet(PlaceTypeErrorSlot, Null),
     SlotSet(PlaceNameSlot, TextValue(p.placeName)),
     SlotSet(OpenNowSlot, BoolValue(p.openNow)),
     SlotSet(MealTypeSlot, TextValue(p.mealType)),
     SlotSet(CuisineTypeSlot, TextValue(p.cuisineType)),
     SlotSet(ActivitySlot, ActivityValue(p.activity)),
     SlotSet(PriceRangeSlot, PriceRangeValue(p.priceRange)),
     SlotSet(QualitySlot, QualityValue(p.quality))]
  }

  /** Whether the message modifies the selected search. */
  predicate Modifies(m: Message) {
    exists k :: 0 <= k < |GetIntents(m)| && StartsWith(GetIntents(m)[k], "inform")
  }

  /** `action_start_search`. An "inform..." intent loads the selected search
      into the form; otherwise a placeholder is appended and selected, the
      result selection and the form are cleared, and a booking is to be
      suggested exactly when the message names a date. */
  function StartSearch(store: Kv, history: Entries, selected: seq<int>, m: Message): (r: Result<Reply>)
    ensures Modifies(m) ==>
              var search := SearchAt(store, history, selected);
              && (r.Ok? <==> search.Ok?)
              && (r.Err? ==> r.error == search.error)
              && (r.Ok? ==> r.value == Reply(LoadEvents(search.value.parameters), []))
    ensures !Modifies(m) ==>
              && r.Ok?
              && r.value.responses == ["utter_start_search"]
              && |r.value.events| == 4 + |FormSlots|
              && r.value.events[0] == SlotSet(HistorySlot, KeyList(Open(history)))
              && r.value.events[1] == SlotSet(SelectedSlot, Ints([|history|]))
              && r.value.events[2] == SlotSet(ResultsSlot, Null)
              && (forall k :: 0 <= k < |FormSlots| ==> r.value.events[3 + k] == SlotSet(FormSlots[k], Null))
              && r.value.events[3 + |FormSlots|] == SlotSet(SuggestSlot, Bool(|EntityValues(m, "datetime")| > 0))
  {
    if Modifies(m) then
      var search :- SearchAt(store, history, selected);
      Ok(Reply(LoadEvents(search.parameters), []))
    else
      Ok(Reply([SlotSet(HistorySlot, KeyList(Open(history))),
                SlotSet(SelectedSlot, Ints([|history|])),
                SlotSet(ResultsSlot, Null)]
               + ClearedForm()
               + [SlotSet(SuggestSlot, Bool(|EntityValues(m, "datetime")| > 0))],
               ["utter_start_search"]))
  }

  /** The search parameters the form slots describe. The form has no ranking
      slot, so the ranking is the default. A location that is not a place
      fails to deserialise. */
  function FormParameters(slots: Slots): (r: Result<SearchParameters>)
    ensures r.Ok? <==> GetSlot(slots, LocationSlot, Null).PlaceValue?
    ensures r.Err? ==> r.error == TypeError
    ensures r.Ok? ==> && r.value.location == GetSlot(slots, LocationSlot, Null).place
                      && r.value.rankBy == Relevance
                      && r.value.activity == ActivityOf(GetSlot(slots, ActivitySlot, Null))
                      && r.value.placeType == TextOf(GetSlot(slots, PlaceTypeSlot, Null))
  {
    match GetSlot(slots, LocationSlot, Null)
    case PlaceValue(location) =>
      Ok(SearchParameters(location,
                          TextOf(GetSlot(slots, PlaceTypeSlot, Null)),
                          TextOf(GetSlot(slots, PlaceNameSlot, Null)),
                          BoolOf(GetSlot(slots, OpenNowSlot, Null)),
                          TextOf(GetSlot(slots, MealTypeSlot, Null)),
                          TextOf(GetSlot(slots, CuisineTypeSlot, Null)),
                          ActivityOf(GetSlot(slots, ActivitySlot, Null)),
                          PriceRangeOf(GetSlot(slots, PriceRangeSlot, Null)),
                          QualityOf(GetSlot(slots, QualitySlot, Null)),
                          Relevance))
    case _ => Err(TypeError)
  }

  /** `action_create_search`: a modified search is saved, without results,
      under its key; a new one is stored under a fresh key that replaces the
      placeholder. */
  function CreateSearch(slots: Slots, history: Entries, selected: seq<int>, store: Kv): (r: Result<(seq<Event>, Kv)>)
    ensures r.Ok? <==> && |selected| > 0 && FormParameters(slots).Ok?
                       && SelectedEntry(history, selected).Ok?
                       && (SelectedEntry(history, selected).value.Some? ==> SearchAt(store, history, selected).Ok?)
    ensures r.Ok? && SelectedEntry(history, selected).value.Some? ==>
              var key := SelectedEntry(history, selected).value.value;
              && r.value.0 == []
              && r.value.1.searches == store.searches[key := SearchData(FormParameters(slots).value, None)]
              && r.value.1.bookings == store.bookings
    ensures r.Ok? && SelectedEntry(history, selected).value.None? ==>
              var p := PyPosition(|history|, selected[0]);
              && |r.value.0| == 3
              && r.value.0[1] == SlotSet(SelectedSlot, Ints([selected[0]]))
              && r.value.0[2] == SlotSet("selected_searches_error", Null)
              && r.value.0[0].SlotSet? && r.value.0[0].slot == HistorySlot
              && r.value.0[0].value.KeyList?
              && var h := r.value.0[0].value.keys;
                 && |h| == |history| && h[p].Some? && h[p].value !in store.searches
                 && (forall j :: 0 <= j < |history| && j != p ==> h[j] == history[j])
                 && r.value.1.searches == store.searches[h[p].value := SearchData(FormParameters(slots).value, None)]
                 && r.value.1.bookings == store.bookings
  {
    var idx :- PyIndex(selected, 0);
    var parameters :- FormParameters(slots);
    var search := SearchData(parameters, None);
    var entry :- PyIndex(history, idx);
    match entry
    case Some(key) =>
      var store' :- UpdateSearch(store, key, search);
      Ok(([], store'))
    case None =>
      var (store', key) := AddSearch(store, search);
      var history' := Fill(history, idx, key).value;
      Ok(([SlotSet(HistorySlot, KeyList(history')), SlotSet(SelectedSlot, Ints([idx])),
           SlotSet("selected_searches_error", Null)], store'))
  }

  /** `action_cancel_search`: a search being created is dropped from the
      history; a modification is abandoned without changes. */
  function CancelSearch(history: Entries, selected: seq<int>): (r: Result<Reply>)
    ensures r.Ok? <==> SelectedEntry(history, selected).Ok?
    ensures r.Ok? && SelectedEntry(history, selected).value.Some? ==> r.value == Reply([], ["utter_cancel_modify_search"])
    ensures r.Ok? && SelectedEntry(history, selected).value.None? ==>
              && Remove(history, selected[0]).Ok?
              && r.value == Reply([SlotSet(HistorySlot, KeyList(Remove(history, selected[0]).value)),
                                   SlotSet(SelectedSlot, Ints([]))],
                                  ["utter_cancel_search"])
  {
    var idx :- PyIndex(selected, 0);
    var entry :- PyIndex(history, idx);
    if entry.None? then
      var history' := Remove(history, idx).value;
      Ok(Reply([SlotSet(HistorySlot, KeyList(history')), SlotSet(SelectedSlot, Ints([]))], ["utter_cancel_search"]))
    else
      Ok(Reply([], ["utter_cancel_modify_search"]))
  }

  /** A new search asks for the place type: the form it leaves behind has
      none of the alternative slots set. */
  lemma NewSearchAsksForPlaceType(slots: Slots, store: Kv, history: Entries, selected: seq<int>, m: Message)
    requires !Modifies(m)
    ensures var after := ApplyEvents(slots, StartSearch(store, history, selected, m).value.events);
            RequiredSlots(after) == [PlaceTypeSlot, LocationSlot]
  {
    NewFormNeedsPlaceType(slots, StartSearch(store, history, selected, m).value.events);
  }

  /** Events that clear every form slot and then set only the booking
      suggestion leave none of the alternative slots set. */
  lemma NewFormNeedsPlaceType(slots: Slots, events: seq<Event>)
    requires |events| == 4 + |FormSlots|
    requires forall i :: 0 <= i < |FormSlots| ==> events[3 + i] == SlotSet(FormSlots[i], Null)
    requires events[3 + |FormSlots|].SlotSet? && events[3 + |FormSlots|].slot == SuggestSlot
    ensures RequiredSlots(ApplyEvents(slots, events)) == [PlaceTypeSlot, LocationSlot]
  {
    var after := ApplyEvents(slots, events);
    // The alternative slots sit at positions 11, 9, 10, 5 and 7 of the events.
    assert GetSlot(after, ActivitySlot, Null) == Null by { ClearedByNewSearch(slots, events, 11); }
    assert GetSlot(after, MealTypeSlot, Null) == Null by { ClearedByNewSearch(slots, events, 9); }
    assert GetSlot(after, CuisineTypeSlot, Null) == Null by { ClearedByNewSearch(slots, events, 10); }
    assert GetSlot(after, PlaceTypeSlot, Null) == Null by { ClearedByNewSearch(slots, events, 5); }
    assert GetSlot(after, PlaceNameSlot, Null) == Null by { ClearedByNewSearch(slots, events, 7); }
    assert forall k :: 0 <= k < |AlternativeSlots| ==> GetSlot(after, AlternativeSlots[k], Null) == Null;
  }

  /** The form slots are named apart, and apart from the booking suggestion. */
  lemma FormSlotsDistinct()
    ensures forall i, j :: 0 <= i < j < |FormSlots| ==> FormSlots[i] != FormSlots[j]
    ensures SuggestSlot !in FormSlots
  {
  }

  /** A form slot a new search clears reads as missing afterwards. */
  lemma ClearedByNewSearch(slots: Slots, events: seq<Event>, k: nat)
    requires |events| == 4 + |FormSlots| && 3 <= k < 3 + |FormSlots|
    requires events[k] == SlotSet(FormSlots[k - 3], Null)
    requires forall i :: 0 <= i < |FormSlots| ==> events[3 + i] == SlotSet(FormSlots[i], Null)
    requires events[3 + |FormSlots|].SlotSet? && events[3 + |FormSlots|].slot == SuggestSlot
    ensures GetSlot(ApplyEvents(slots, events), FormSlots[k - 3], Null) == Null
  {
    FormSlotsDistinct();
    forall j | k < j < |events|
      ensures !events[j].Restarted? && !events[j].SessionStarted?
              && !(events[j].SlotSet? && events[j].slot == events[k].slot)
    {
      if j < 3 + |FormSlots| {
        assert events[j] == SlotSet(FormSlots[j - 3], Null);
        assert FormSlots[j - 3] != FormSlots[k - 3];
      }
    }
    LastSlotSetWins(slots, events, k);
  }

  /** Cancelling the placeholder a new search opened restores the history;
      creating it stores the form's search under a fresh key that is
      appended to the history. */
  lemma NewSearchLifecycle(slots: Slots, store: Kv, history: Entries)
    requires FormParameters(slots).Ok?
    ensures var extended := Open(history);
            var selected := [|history| as int];
            && CancelSearch(extended, selected)
               == Ok(Reply([SlotSet(HistorySlot, KeyList(history)), SlotSet(SelectedSlot, Ints([]))],
                           ["utter_cancel_search"]))
            && var (store', key) := AddSearch(store, SearchData(FormParameters(slots).value, None));
               CreateSearch(slots, extended, selected, store)
               == Ok(([SlotSet(HistorySlot, KeyList(history + [Some(key)])), SlotSet(SelectedSlot, Ints(selected)),
                       SlotSet("selected_searches_error", Null)], store'))
  {
    var key := FreshKey(store.searches.Keys);
    OpenThenCancelOrFill(history, key);
  }

  /** Each form slot reads back what loading a search put there. */
  lemma LoadedSlots(slots: Slots, p: SearchParameters)
    ensures forall k :: 0 <= k < |FormSlots| ==>
              GetSlot(ApplyEvents(slots, LoadEvents(p)), FormSlots[k], Null) == LoadEvents(p)[k].value
  {
    var events := LoadEvents(p);
    forall k | 0 <= k < |FormSlots|
      ensures GetSlot(ApplyEvents(slots, events), FormSlots[k], Null) == events[k].value
    {
      LastSlotSetWins(slots, events, k);
    }
  }

  /** The form loaded from a search describes that search, ranked by
      relevance. */
  lemma LoadedFormParameters(slots: Slots, p: SearchParameters)
    ensures FormParameters(ApplyEvents(slots, LoadEvents(p))) == Ok(p.(rankBy := Relevance))
  {
    var after := ApplyEvents(slots, LoadEvents(p));
    LoadedSlots(slots, p);
    assert GetSlot(after, FormSlots[0], Null) == PlaceValue(p.location);
    assert GetSlot(after, FormSlots[2], Null) == TextValue(p.placeType);
    assert GetSlot(after, FormSlots[4], Null) == TextValue(p.placeName);
    assert GetSlot(after, FormSlots[5], Null) == BoolValue(p.openNow);
    assert GetSlot(after, FormSlots[6], Null) == TextValue(p.mealType);
    assert GetSlot(after, FormSlots[7], Null) == TextValue(p.cuisineType);
    assert GetSlot(after, FormSlots[8], Null) == ActivityValue(p.activity);
    assert GetSlot(after, FormSlots[9], Null) == PriceRangeValue(p.priceRange);
    assert GetSlot(after, FormSlots[10], Null) == QualityValue(p.quality);
  }

  /** Modifying a search and saving the loaded form unchanged keeps every
      parameter, but resets the ranking to relevance and forgets the results:
      the form carries neither. */
  lemma ModifySearchRoundTrip(slots: Slots, store: Kv, history: Entries, selected: seq<int>, m: Message)
    requires Modifies(m)
    requires SearchAt(store, history, selected).Ok?
    ensures var stored := SearchAt(store, history, selected).value;
            var key := SelectedEntry(history, selected).value.value;
            var after := ApplyEvents(slots, StartSearch(store, history, selected, m).value.events);
            CreateSearch(after, history, selected, store)
            == Ok(([], store.(searches := store.searches[key := SearchData(stored.parameters.(rankBy := Relevance), None)])))
  {
    var p := SearchAt(store, history, selected).value.parameters;
    LoadedFormParameters(slots, p);
  }

  // ------------------------------------------------------------------------
  // Running a search
  // ------------------------------------------------------------------------

  /** The opening of the message reporting a search, chosen by how many
      results there are now and how many the search had before. */
  function SearchHeader(previous: Option<seq<Place>>, n: nat): string {
    if n == 0 then
      if previous.None? then "I couldn't find any places matching your search criteria. Try loosening them a bit."
      else if |previous.value| == 0 then "Sorry, but I still cannot find any places."
      else "These new search criteria may be too restrictive because I cannot find any places satisfying them."
    else if n == 1 then
      if previous.None? then "I found only one place matching your search criteria: "
      else if |previous.value| == 0 then "Well at least now I found one place: "
      else if |previous.value| == 1 then "Even now, I found only one place: "
      else "Using these new search criteria, I found only one place: "
    else if n <= PageSize then
      if previous.None? then "Here are all the results I found:\n"
      else if |previous.value| < n then "With these new search criteria, I found more results:\n"
      else "Here are all the results I found with the new search criteria:\n"
    else
      if previous.None? then "I found multiple places matching your search criteria. Here are the top 5:\n"
      else if |previous.value| < n then "Now I found many more places. Here are the top 5:\n"
      else "Here are the new top 5 results:\n"
  }

  /** What follows the opening: nothing, the single title, or the first page
      of results numbered from 1. */
  function SearchBody(results: seq<Place>): (r: string)
    ensures |results| == 0 ==> r == ""
    ensures |results| == 1 ==> r == SearchUtils.GetPlaceTitle(results[0])
    ensures |results| >= 2 ==> r == SearchUtils.EnumeratedLines(results[..Min(|results|, PageSize)], 1)
  {
    if |results| == 0 then ""
    else if |results| == 1 then SearchUtils.GetPlaceTitle(results[0])
    else SearchUtils.EnumeratedLines(results[..Min(|results|, PageSize)], 1)
  }

  /** The first page of positions: `list(range(min(len(results), 5)))`. */
  function FirstPage(n: nat): (r: seq<int>)
    ensures |r| == Min(n, PageSize) && |r| <= PageSize
    ensures forall k :: 0 <= k < |r| ==> r[k] == k && k < n
  {
    Range(Min(n, PageSize))
  }

  /** Whether a search's single result is to be offered for booking. */
  predicate SuggestsBooking(results: seq<Place>, suggest: Value) {
    |results| == 1 && IsTruthy(suggest) && results[0].reservable == Some(true)
  }

  /** `action_search`: queries the places, stores the results with the
      search, selects the first page and, for a single reservable result
      when a booking is to be suggested, follows up with the suggestion. */
  function Search(history: Entries, selected: Option<seq<int>>, store: Kv, suggest: Value,
                  find: SearchParameters -> seq<Place>): (r: Result<(Reply, Kv)>)
    ensures selected.None? ==> r == Err(TypeError)
    ensures selected.Some? ==> (r.Ok? <==> SearchAt(store, history, selected.value).Ok?)
    ensures selected.Some? && r.Err? ==> r.error == SearchAt(store, history, selected.value).error
    ensures r.Ok? ==>
              var search := SearchAt(store, history, selected.value).value;
              var key := SelectedEntry(history, selected.value).value.value;
              var results := find(search.parameters);
              && r.value.0.responses == [SearchHeader(search.results, |results|) + SearchBody(results)]
              && |r.value.0.events| == (if SuggestsBooking(results, suggest) then 2 else 1)
              && r.value.0.events[0] == SlotSet(ResultsSlot, Ints(FirstPage(|results|)))
              && (SuggestsBooking(results, suggest) ==> r.value.0.events[1] == FollowupAction("action_suggest_booking"))
              && (FollowupAction("action_suggest_booking") in r.value.0.events <==> SuggestsBooking(results, suggest))
              && r.value.1.searches == store.searches[key := search.(results := Some(results))]
              && r.value.1.bookings == store.bookings
  {
    if selected.None? then Err(TypeError)
    else
      var entry :- SelectedEntry(history, selected.value);
      var search :- Lookup(store.searches, entry);
      var results := find(search.parameters);
      var store' := UpdateSearch(store, entry.value, search.(results := Some(results))).value;
      var followup := if SuggestsBooking(results, suggest) then [FollowupAction("action_suggest_booking")] else [];
      Ok((Reply([SlotSet(ResultsSlot, Ints(FirstPage(|results|)))] + followup,
                [SearchHeader(search.results, |results|) + SearchBody(results)]), store'))
  }

  /** Once the booking has been suggested, searching again does not suggest
      it a second time. */
  lemma SuggestionIsMadeOnce(slots: Slots, history: Entries, selected: seq<int>, store: Kv,
                             find: SearchParameters -> seq<Place>)
    requires SearchAt(store, history, selected).Ok?
    ensures var after := ApplyEvents(slots, BookingActionsSuggestion());
            var r := Search(history, Some(selected), store, GetSlot(after, SuggestSlot, Null), find);
            r.Ok? && FollowupAction("action_suggest_booking") !in r.value.0.events
  {
    GetSlotAfterSet(slots, [], SuggestSlot, Bool(false), Null);
    assert [] + [SlotSet(SuggestSlot, Bool(false))] == BookingActionsSuggestion();
  }

  /** The events of `action_suggest_booking`. */
  function BookingActionsSuggestion(): (r: seq<Event>)
    ensures r == [SlotSet(SuggestSlot, Bool(false))]
  {
    [SlotSet(SuggestSlot, Bool(false))]
  }

  // ------------------------------------------------------------------------
  // Re-ranking
  // ------------------------------------------------------------------------

  /** What a ranking intent asks for. */
  datatype RankRequest = Ranked(rank: RankBy) | Unsupported

  function RankRequestOfIntent(intent: string): Option<RankRequest> {
    match intent
    case "rank_results_by_relevance" => Some(Ranked(Relevance))
    case "rank_results_by_distance" => Some(Ranked(Distance))
    case "rank_results_by_unsupported" => Some(Unsupported)
    case _ => None
  }

  function RankName(rank: RankBy): string {
    match rank
    case Relevance => "relevance"
    case Distance => "distance"
  }

  /** The re-ranked listing: a heading, then "\n{i}. {title}" per result of
      the first page. */
  function RankedLines(results: seq<Place>, first: int): string
    decreases |results|
  {
    if |results| == 0 then ""
    else "\n" + IntToString(first) + ". " + SearchUtils.GetPlaceTitle(results[0]) + RankedLines(results[1..], first + 1)
  }

  function RankedMessage(rank: RankBy, results: seq<Place>): string {
    (if |results| <= PageSize then "Here are all the results sorted by " + RankName(rank) + ":"
     else "Here are the top 5 results sorted by " + RankName(rank) + ":")
    + RankedLines(results[..Min(|results|, PageSize)], 1)
  }

  /** `action_change_search_rank_by`. The first ranking intent decides; an
      unsupported ranking is declined and no ranking intent at all is an
      error. Asking for the current ranking changes nothing, a search with
      fewer than two results only records the new ranking, and otherwise the
      places are queried again and the first page is selected. */
  function ChangeSearchRankBy(m: Message, history: Entries, selected: Option<seq<int>>, store: Kv,
                              find: SearchParameters -> seq<Place>): (r: Result<(Reply, Kv)>)
    ensures FirstSome(GetIntents(m), RankRequestOfIntent).None? ==> r == Err(RuntimeError)
    ensures FirstSome(GetIntents(m), RankRequestOfIntent) == Some(Unsupported) ==>
              r == Ok((Reply([], ["utter_unsupported_rank_by"]), store))
    ensures FirstSome(GetIntents(m), RankRequestOfIntent).Some?
            && FirstSome(GetIntents(m), RankRequestOfIntent).value.Ranked? ==>
              var rank := FirstSome(GetIntents(m), RankRequestOfIntent).value.rank;
              && (selected.None? ==> r == Err(TypeError))
              && (selected.Some? ==> (r.Ok? <==> SearchAt(store, history, selected.value).Ok?))
              && (r.Ok? ==>
                    var search := SearchAt(store, history, selected.value).value;
                    var key := SelectedEntry(history, selected.value).value.value;
                    var reranked := search.(parameters := search.parameters.(rankBy := rank));
                    && r.value.1.bookings == store.bookings
                    && (search.parameters.rankBy == rank ==>
                          r.value == (Reply([], ["utter_already_ranked_by"]), store))
                    && (search.parameters.rankBy != rank && |search.results.GetOr([])| < 2 ==>
                          r.value == (Reply([], ["utter_changed_rank_by"]),
                                      store.(searches := store.searches[key := reranked])))
                    && (search.parameters.rankBy != rank && |search.results.GetOr([])| >= 2 ==>
                          var results := find(reranked.parameters);
                          && r.value.0 == Reply([SlotSet(ResultsSlot, Ints(FirstPage(|results|)))],
                                                [RankedMessage(rank, results)])
                          && r.value.1.searches == store.searches[key := reranked.(results := Some(results))]))
  {
    var request: Option<RankRequest> := FirstSome(GetIntents(m), RankRequestOfIntent);
    match request
    case None => Err(RuntimeError)
    case Some(Unsupported) => Ok((Reply([], ["utter_unsupported_rank_by"]), store))
    case Some(Ranked(rank)) =>
      if selected.None? then Err(TypeError)
      else
        var entry :- SelectedEntry(history, selected.value);
        var search :- Lookup(store.searches, entry);
        if search.parameters.rankBy == rank then Ok((Reply([], ["utter_already_ranked_by"]), store))
        else
          var reranked := search.(parameters := search.parameters.(rankBy := rank));
          if |search.results.GetOr([])| < 2 then
            Ok((Reply([], ["utter_changed_rank_by"]), UpdateSearch(store, entry.value, reranked).value))
          else
            var results := find(reranked.parameters);
            Ok((Reply([SlotSet(ResultsSlot, Ints(FirstPage(|results|)))], [RankedMessage(rank, results)]),
                UpdateSearch(store, entry.value, reranked.(results := Some(results))).value))
  }

  /** Re-ranking is idempotent: asking again for the ranking just applied
      changes nothing. */
  lemma RerankingIsIdempotent(m: Message, history: Entries, selected: seq<int>, store: Kv,
                              find: SearchParameters -> seq<Place>)
    requires FirstSome(GetIntents(m), RankRequestOfIntent).Some?
    requires FirstSome(GetIntents(m), RankRequestOfIntent).value.Ranked?
    requires ChangeSearchRankBy(m, history, Some(selected), store, find).Ok?
    ensures var store' := ChangeSearchRankBy(m, history, Some(selected), store, find).value.1;
            ChangeSearchRankBy(m, history, Some(selected), store', find)
            == Ok((Reply([], ["utter_already_ranked_by"]), store'))
  {
    var store' := ChangeSearchRankBy(m, history, Some(selected), store, find).value.1;
    var key := SelectedEntry(history, selected).value.value;
    assert key in store'.searches;
    assert SearchAt(store', history, selected).Ok?;
  }
}
