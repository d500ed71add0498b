/** The search helpers of `utils/_search.py` other than `merge_locations`:
    opening-hours membership, the user-location phrase test and the titles
    shown for places and searches. */
module SearchUtils {
  import opened Wrappers
  import opened Strings
  import opened Calendar
  import opened Places
  import opened Records
  import Grammar
  import Seqs

  // ------------------------------------------------------------------------
  // Opening hours
  // ------------------------------------------------------------------------

  /** Whether one opening period admits a time of day: a missing start means
      "since the day before", a missing end "until the day after", and a
      period with both ends is the half-open window [start, end). */
  predicate Admits(p: Period, t: TimeOfDay) {
    match (p.start, p.end)
    case (None, None) => true
    case (None, Some(e)) => t < e
    case (Some(s), None) => t >= s
    case (Some(s), Some(e)) => s <= t < e
  }

  /** The reference reading of `is_place_open`: ValueError without opening
      hours, IndexError when the weekday has no entry, and otherwise whether
      some period of that weekday admits the time. */
  function PlaceOpen(place: Place, dt: DateTime): (r: Result<bool>)
    ensures r.Err? <==> place.openingHours.None? || Weekday(dt.date) >= |place.openingHours.value|
    ensures r.Ok? ==> (r.value <==> exists k :: 0 <= k < |place.openingHours.value[Weekday(dt.date)]|
                                               && Admits(place.openingHours.value[Weekday(dt.date)][k], dt.time))
  {
    match place.openingHours
    case None => Err(ValueError)
    case Some(hours) =>
      var day :- PyIndex(hours, Weekday(dt.date));
      Ok(exists k :: 0 <= k < |day| && Admits(day[k], dt.time))
  }

  /** `is_place_open`: scans the weekday's periods and stops at the first one
      that admits the time. */
  method IsPlaceOpen(place: Place, dt: DateTime) returns (r: Result<bool>)
    ensures place.openingHours.None? ==> r == Err(ValueError)
    ensures place.openingHours.Some? && Weekday(dt.date) >= |place.openingHours.value| ==> r == Err(IndexError)
    ensures r.Ok? ==> (r.value <==> exists k :: 0 <= k < |place.openingHours.value[Weekday(dt.date)]|
                                               && Admits(place.openingHours.value[Weekday(dt.date)][k], dt.time))
    ensures r == PlaceOpen(place, dt)
  {
    if place.openingHours.None? {
      return Err(ValueError);
    }
    var hours := place.openingHours.value;
    var wd := Weekday(dt.date);
    if wd >= |hours| {
      return Err(IndexError);
    }
    var periods := hours[wd];
    var t := dt.time;
    var isOpen := false;
    var k := 0;
    while k < |periods|
      invariant 0 <= k <= |periods|
      invariant !isOpen
      invariant forall j :: 0 <= j < k ==> !Admits(periods[j], t)
    {
      match (periods[k].start, periods[k].end) {
      case (None, None) =>
        isOpen := true;
        break;
      case (None, Some(e)) =>
        if t < e {
          isOpen := true;
          break;
        }
      case (Some(s), None) =>
        if t >= s {
          isOpen := true;
          break;
        }
      case (Some(s), Some(e)) =>
        if s <= t < e {
          isOpen := true;
          break;
        }
      }
      k := k + 1;
    }
    return Ok(isOpen);
  }

  // ------------------------------------------------------------------------
  // User-like locations
  // ------------------------------------------------------------------------

  /** The phrases that make a location text mean "where the user is". */
  const UserLocationPhrases: set<string> := {
    "my location", "my position", "my coordinates", "my address",
    "my place", "my home", "my city", "my town",
    "where i am", "where i live", "where i stay", "where i reside"
  }

  /** `is_user_location`: the lower-cased text contains one of the phrases.
      Every phrase has at least seven characters, so a shorter text never
      qualifies. */
  predicate IsUserLocation(text: string): (r: bool)
    ensures forall p :: p in UserLocationPhrases && Contains(ToLower(text), p) ==> r
    ensures r ==> |text| >= 7
  {
    ShortTextIsNotUserLocation(text);
    exists p :: p in UserLocationPhrases && Contains(ToLower(text), p)
  }

  /** Every phrase is at least seven characters long, so a text holding one
      has at least seven characters too. */
  lemma ShortTextIsNotUserLocation(text: string)
    ensures forall p :: p in UserLocationPhrases && Contains(ToLower(text), p) ==> |text| >= 7
  {
    PhrasesAreLong();
    forall p | p in UserLocationPhrases && Contains(ToLower(text), p)
      ensures |text| >= 7
    {
      ContainsLength(ToLower(text), p);
    }
  }

  lemma PhrasesAreLong()
    ensures forall p :: p in UserLocationPhrases ==> |p| >= 7
  {
  }

  /** The test ignores case and survives any words around the phrase, so
      "Take me to MY HOME now" and every other wrapping of a phrase qualify. */
  lemma UserLocationInContext(before: string, text: string, after: string)
    requires IsUserLocation(text)
    ensures IsUserLocation(before + text + after)
    ensures IsUserLocation(ToLower(text))
  {
    var p :| p in UserLocationPhrases && Contains(ToLower(text), p);
    ToLowerAppend(before, text);
    ToLowerAppend(before + text, after);
    ContainsInfix(ToLower(before), ToLower(text), ToLower(after), p);
    ToLowerIdempotent(text);
  }

  /** "My Home" is recognised in any text around it, as in "Near My Home":
      the phrase matches after lower-casing. */
  lemma MixedCasePhraseRecognised(before: string, after: string)
    ensures IsUserLocation(before + "My Home" + after)
  {
    MyHomeIsPhrase();
    ContainsSelf("my home");
    assert Contains(ToLower("My Home"), "my home");
    assert IsUserLocation("My Home");
    UserLocationInContext(before, "My Home", after);
  }

  lemma MyHomeIsPhrase()
    ensures "my home" in UserLocationPhrases
    ensures ToLower("My Home") == "my home"
  {
  }

  // ------------------------------------------------------------------------
  // Titles
  // ------------------------------------------------------------------------

  /** `get_place_title`: "name (address)", each part empty when missing. */
  function GetPlaceTitle(place: Place): (r: string)
    ensures |r| == |place.displayName.GetOr("")| + |place.shortAddress.GetOr("")| + 3
    ensures r[|r| - 1] == ')'
  {
    place.displayName.GetOr("") + " (" + place.shortAddress.GetOr("") + ")"
  }

  /** The title splits back at its first parenthesis into the name and the
      address, provided the name itself has no parenthesis. */
  lemma PlaceTitleReadsBack(place: Place)
    requires '(' !in place.displayName.GetOr("")
    ensures var name := place.displayName.GetOr("");
            var address := place.shortAddress.GetOr("");
            SplitOnce(GetPlaceTitle(place), '(') == Some((name + " ", address + ")"))
  {
    var name := place.displayName.GetOr("");
    var address := place.shortAddress.GetOr("");
    var r := GetPlaceTitle(place);
    assert r == (name + " ") + ['('] + (address + ")");
    assert '(' !in name + " ";
    SplitOnceUnique(r, '(', name + " ", address + ")");
  }

  /** A split at the first `c` is determined by where `c` first occurs. */
  lemma SplitOnceUnique(s: string, c: char, a: string, b: string)
    requires s == a + [c] + b && c !in a
    ensures SplitOnce(s, c) == Some((a, b))
  {
    var r := SplitOnce(s, c);
    var (x, y) := r.value;
    assert forall i :: 0 <= i < |a| ==> s[i] == a[i] && s[i] != c;
    assert forall i :: 0 <= i < |x| ==> s[i] == x[i] && s[i] != c;
    assert s[|a|] == c && s[|x|] == c;
    assert |x| == |a|;
    assert x == s[..|x|] == a;
    assert y == s[|x| + 1..] == b;
  }

  /** One line of a numbered result listing: "{n}. {title}\n". */
  function ResultLine(n: int, place: Place): string {
    IntToString(n) + ". " + GetPlaceTitle(place) + "\n"
  }

  /** `for i, result in enumerate(results, start=first)`: every result on its
      own line, numbered consecutively from `first`. */
  function EnumeratedLines(results: seq<Place>, first: int): (r: string)
    decreases |results|
  {
    if |results| == 0 then "" else ResultLine(first, results[0]) + EnumeratedLines(results[1..], first + 1)
  }

  /** `for i in selected: ... f"{i + 1}. {title(results[i])}"`: the selected
      results in selection order, each numbered by its position plus one, with
      Python's indexing rules. */
  function SelectedLines(results: seq<Place>, selected: seq<int>): (r: Result<string>)
    ensures r.Ok? <==> forall k :: 0 <= k < |selected| ==> PyIndex(results, selected[k]).Ok?
    ensures r.Err? ==> r.error == IndexError
    decreases |selected|
  {
    if |selected| == 0 then Ok("")
    else
      var place :- PyIndex(results, selected[0]);
      var rest :- SelectedLines(results, selected[1..]);
      Ok(ResultLine(selected[0] + 1, place) + rest)
  }

  /** Listing a run of consecutive positions numbers the results exactly as
      enumerating them does. */
  lemma {:induction false} SelectedRunIsEnumerated(results: seq<Place>, a: nat)
    requires a <= |results|
    ensures SelectedLines(results, seq(|results| - a, k => a + k)) == Ok(EnumeratedLines(results[a..], a + 1))
    decreases |results| - a
  {
    var run := seq(|results| - a, k => a + k);
    if a < |results| {
      var tail := EnumeratedLines(results[a + 1..], a + 2);
      assert SelectedLines(results, run[1..]) == Ok(tail) by {
        assert run[1..] == seq(|results| - (a + 1), k => a + 1 + k);
        SelectedRunIsEnumerated(results, a + 1);
      }
      assert SelectedLines(results, run) == Ok(ResultLine(a + 1, results[a]) + tail) by {
        assert run[0] == a;
        SelectedLinesStep(results, run);
      }
      assert EnumeratedLines(results[a..], a + 1) == ResultLine(a + 1, results[a]) + tail by {
        assert results[a..][0] == results[a] && results[a..][1..] == results[a + 1..];
      }
    }
  }

  /** One step of listing: the first selected result, then the others. */
  lemma SelectedLinesStep(results: seq<Place>, selected: seq<int>)
    requires |selected| > 0 && 0 <= selected[0] < |results|
    requires SelectedLines(results, selected[1..]).Ok?
    ensures SelectedLines(results, selected)
            == Ok(ResultLine(selected[0] + 1, results[selected[0]]) + SelectedLines(results, selected[1..]).value)
  {
  }

  /** Selecting every result lists them as `enumerate(results, start=1)`. */
  lemma SelectingAllIsEnumerating(results: seq<Place>)
    ensures SelectedLines(results, Seqs.Range(|results|)) == Ok(EnumeratedLines(results, 1))
  {
    SelectedRunIsEnumerated(results, 0);
    assert seq(|results| - 0, k => 0 + k) == Seqs.Range(|results|);
    assert results[0..] == results;
  }

  /** Python's `str()` of an optional string inside an f-string. */
  function FormatOptional(o: Option<string>): (r: string)
    ensures o.Some? ==> r == o.value
    ensures o.None? ==> r == "None"
  {
    match o
    case Some(s) => s
    case None => "None"
  }

  /** The noun phrase for what is searched: the pluralised place type, or a
      default phrase for the activity. */
  function PlaceTypePhrase(p: SearchParameters, singularNoun: string -> Option<string>,
                           pluralNoun: string -> string): string
  {
    if Truthy(p.placeType) then Grammar.Pluralize(p.placeType.value, singularNoun, pluralNoun)
    else if p.activity == Some(Eat) then "places to eat"
    else if p.activity == Some(Drink) then "places to have a drink"
    else "places to go"
  }

  /** The text between "search for " and the location in a title. */
  function TitleSubject(p: SearchParameters, singularNoun: string -> Option<string>,
                        pluralNoun: string -> string): string
  {
    if Truthy(p.placeName) then p.placeName.value
    else
      var cuisine := if Truthy(p.cuisineType) then p.cuisineType.value + " " else "";
      var meal := if Truthy(p.mealType) then " for " + p.mealType.value else "";
      cuisine + PlaceTypePhrase(p, singularNoun, pluralNoun) + meal
  }

  /** `get_search_title`. */
  function GetSearchTitle(p: SearchParameters, singularNoun: string -> Option<string>,
                          pluralNoun: string -> string): (r: string)
    ensures |r| >= 11 && r[..11] == "search for "
    ensures var near := " near " + FormatOptional(p.location.shortAddress);
            |r| >= |near| && r[|r| - |near|..] == near
  {
    var near := " near " + FormatOptional(p.location.shortAddress);
    var subject := TitleSubject(p, singularNoun, pluralNoun);
    Framed("search for ", subject, near);
    "search for " + subject + near
  }

  /** A text keeps its first and last parts as prefix and suffix. */
  lemma Framed(a: string, m: string, b: string)
    ensures (a + m + b)[..|a|] == a
    ensures (a + m + b)[|a + m + b| - |b|..] == b
  {
  }

  /** A named search is titled by the name alone: the type, cuisine, meal and
      activity do not show. */
  lemma NamedSearchTitle(p: SearchParameters, q: SearchParameters, singularNoun: string -> Option<string>,
                         pluralNoun: string -> string)
    requires Truthy(p.placeName) && p.placeName == q.placeName
    requires p.location.shortAddress == q.location.shortAddress
    ensures GetSearchTitle(p, singularNoun, pluralNoun) == GetSearchTitle(q, singularNoun, pluralNoun)
    ensures GetSearchTitle(p, singularNoun, pluralNoun)
            == "search for " + p.placeName.value + " near " + FormatOptional(p.location.shortAddress)
  {
  }

  /** Without a name, type, cuisine or meal the title falls back to the
      activity: "places to eat", "places to have a drink" or "places to go". */
  lemma DefaultSearchTitles(location: Place, singularNoun: string -> Option<string>, pluralNoun: string -> string)
    ensures var p := NewSearchParameters(location);
            var near := " near " + FormatOptional(location.shortAddress);
            && GetSearchTitle(p.(activity := Some(Eat)), singularNoun, pluralNoun)
               == "search for " + "places to eat" + near
            && GetSearchTitle(p.(activity := Some(Drink)), singularNoun, pluralNoun)
               == "search for " + "places to have a drink" + near
            && GetSearchTitle(p, singularNoun, pluralNoun) == "search for " + "places to go" + near
  {
    var p := NewSearchParameters(location);
    DefaultSubject(p.(activity := Some(Eat)), singularNoun, pluralNoun, "places to eat");
    DefaultSubject(p.(activity := Some(Drink)), singularNoun, pluralNoun, "places to have a drink");
    DefaultSubject(p, singularNoun, pluralNoun, "places to go");
  }

  lemma DefaultSubject(p: SearchParameters, singularNoun: string -> Option<string>, pluralNoun: string -> string,
                       phrase: string)
    requires !Truthy(p.placeName) && !Truthy(p.placeType) && !Truthy(p.cuisineType) && !Truthy(p.mealType)
    requires PlaceTypePhrase(p, singularNoun, pluralNoun) == phrase
    ensures GetSearchTitle(p, singularNoun, pluralNoun)
            == "search for " + phrase + " near " + FormatOptional(p.location.shortAddress)
  {
    assert TitleSubject(p, singularNoun, pluralNoun) == "" + phrase + "";
    assert "" + phrase + "" == phrase;
  }

  /** With a cuisine and a meal, both appear around the place-type phrase. */
  lemma CuisineAndMealInTitle(p: SearchParameters, singularNoun: string -> Option<string>, pluralNoun: string -> string)
    requires !Truthy(p.placeName) && Truthy(p.cuisineType) && Truthy(p.mealType)
    ensures GetSearchTitle(p, singularNoun, pluralNoun)
            == "search for " + p.cuisineType.value + " " + PlaceTypePhrase(p, singularNoun, pluralNoun)
               + " for " + p.mealType.value + " near " + FormatOptional(p.location.shortAddress)
  {
    var phrase := PlaceTypePhrase(p, singularNoun, pluralNoun);
    var near := " near " + FormatOptional(p.location.shortAddress);
    var cuisine := p.cuisineType.value + " ";
    var meal := " for " + p.mealType.value;
    assert GetSearchTitle(p, singularNoun, pluralNoun) == "search for " + (cuisine + phrase + meal) + near;
    assert "search for " + (cuisine + phrase + meal) + near
           == "search for " + p.cuisineType.value + " " + phrase + " for " + p.mealType.value + near;
  }
}
