/** The deterministic helpers of `_info.py`: which intents a place-information
    request carries, the opening intervals of a place inside a time window,
    the schedule sentence of one weekday, and the children and price answers.
    Times are rendered through a formatter passed in (the source's
    `strftime('%I:%M %p')`). */
module Info {
  import opened Wrappers
  import opened Strings
  import opened Seqs
  import opened Calendar
  import opened Places
  import opened RasaUtils
  import SearchUtils

  // ------------------------------------------------------------------------
  // Which information is asked for
  // ------------------------------------------------------------------------

  /** The intents that have an answer (the keys of `INTENT_TO_INFO`). */
  const InfoIntentNames: set<string> := {
    "ask_address", "ask_contact", "ask_price_level", "ask_rating", "ask_website",
    "ask_allows_animals", "ask_good_for_children", "ask_parking_options",
    "ask_payment_options", "ask_outdoor_seating", "ask_reservable", "ask_restroom",
    "ask_vegetarian", "ask_takeout", "ask_opening_hours"
  }

  predicate IsInfoIntent(name: string) {
    name in InfoIntentNames
  }

  /** A user turn whose '+'-joined intent names at least one answerable intent. */
  predicate AsksForInfo(e: LoggedEvent) {
    e.UserUttered? && exists x :: x in SplitOn(e.intentName, '+') && IsInfoIntent(x)
  }

  /** Position of the latest user turn that asks for information. */
  function LastInfoRequest(log: seq<LoggedEvent>): (r: Option<nat>)
    ensures r.Some? ==> r.value < |log| && AsksForInfo(log[r.value])
    ensures r.Some? ==> forall j :: r.value < j < |log| ==> !AsksForInfo(log[j])
    ensures r.None? ==> forall j :: 0 <= j < |log| ==> !AsksForInfo(log[j])
    decreases |log|
  {
    if |log| == 0 then None
    else if AsksForInfo(log[|log| - 1]) then Some(|log| - 1)
    else LastInfoRequest(log[..|log| - 1])
  }

  /** `_get_intents`: the answerable intents of the latest information request,
      in the order the user gave them, and that turn's entities. */
  function GetInfoIntents(log: seq<LoggedEvent>): (r: Result<(seq<string>, seq<Entity>)>)
    ensures r.Err? <==> forall j :: 0 <= j < |log| ==> !AsksForInfo(log[j])
    ensures r.Err? ==> r.error == RuntimeError
    ensures r.Ok? ==> |r.value.0| > 0 && forall k :: 0 <= k < |r.value.0| ==> IsInfoIntent(r.value.0[k])
    ensures r.Ok? ==> exists i :: 0 <= i < |log| && AsksForInfo(log[i])
                                  && (forall j :: i < j < |log| ==> !AsksForInfo(log[j]))
                                  && r.value.1 == log[i].userEntities
                                  && (forall k :: 0 <= k < |r.value.0| ==> r.value.0[k] in SplitOn(log[i].intentName, '+'))
  {
    match LastInfoRequest(log)
    case None => Err(RuntimeError)
    case Some(i) =>
      var parts := SplitOn(log[i].intentName, '+');
      var kept := Filter(parts, IsInfoIntent);
      assert exists x :: x in parts && IsInfoIntent(x);
      var x :| x in parts && IsInfoIntent(x);
      assert x in kept;
      Ok((kept, log[i].userEntities))
  }

  /** For a request "a+b+..." the answered intents are exactly the answerable
      parts, in their original order. */
  lemma InfoIntentsOfRequest(before: seq<LoggedEvent>, parts: seq<string>, entities: seq<Entity>)
    requires |parts| >= 1
    requires forall k :: 0 <= k < |parts| ==> '+' !in parts[k]
    requires exists k :: 0 <= k < |parts| && IsInfoIntent(parts[k])
    ensures GetInfoIntents(before + [UserUttered(JoinWith("+", parts), entities)])
            == Ok((Filter(parts, IsInfoIntent), entities))
  {
    var e := UserUttered(JoinWith("+", parts), entities);
    SplitOnJoin(parts, '+');
    var k :| 0 <= k < |parts| && IsInfoIntent(parts[k]);
    assert parts[k] in SplitOn(e.intentName, '+');
    assert AsksForInfo(e);
  }

  // ------------------------------------------------------------------------
  // Opening intervals inside a window
  // ------------------------------------------------------------------------

  type Interval = (TimeOfDay, TimeOfDay)

  predicate IsAllDay(p: Period) {
    p.start.None? && p.end.None?
  }

  /** One period clipped to the window [st, et], as `_get_intervals` does it
      case by case. Every kept period becomes the same clamp: a missing start
      reads as `st`, a missing end as `et`. */
  function Clip(p: Period, st: TimeOfDay, et: TimeOfDay): (r: Option<Interval>)
    ensures r.None? <==> IsAllDay(p) || (p.end.Some? && p.end.value < st) || (p.start.Some? && p.start.value > et)
    ensures r.Some? ==> r.value == (Max(p.start.GetOr(st), st), Min(p.end.GetOr(et), et))
  {
    match (p.start, p.end)
    case (None, None) => None
    case (None, Some(e)) =>
      if e < st then None
      else if e > et then Some((st, et))
      else Some((st, e))
    case (Some(s), None) =>
      if s > et then None
      else if s < st then Some((st, et))
      else Some((s, et))
    case (Some(s), Some(e)) =>
      if e < st || s > et then None
      else Some((Max(s, st), Min(e, et)))
  }

  /** The clipped periods, in order. */
  function ClipAll(periods: seq<Period>, st: TimeOfDay, et: TimeOfDay): (r: seq<Interval>)
    ensures |r| <= |periods|
    decreases |periods|
  {
    if |periods| == 0 then []
    else
      var rest := ClipAll(periods[1..], st, et);
      match Clip(periods[0], st, et)
      case None => rest
      case Some(i) => [i] + rest
  }

  /** `_get_intervals`: RuntimeError without opening hours, the whole window
      when the day's first period is all-day, otherwise the clipped periods. */
  function GetIntervals(place: Place, start: DateTime, end: DateTime): (r: Result<seq<Interval>>)
    ensures place.openingHours.None? ==> r == Err(RuntimeError)
    ensures place.openingHours.Some? ==>
              (r.Err? <==> Weekday(start.date) >= |place.openingHours.value|)
    ensures r.Ok? ==> var day := place.openingHours.value[Weekday(start.date)];
              && |r.value| <= |day|
              && (|day| == 0 ==> r.value == [])
              && (|day| > 0 && IsAllDay(day[0]) ==> r.value == [(start.time, end.time)])
  {
    match place.openingHours
    case None => Err(RuntimeError)
    case Some(hours) =>
      var day :- PyIndex(hours, Weekday(start.date));
      if |day| == 0 then Ok([])
      else if day[0] == Period(None, None) then Ok([(start.time, end.time)])
      else Ok(ClipAll(day, start.time, end.time))
  }

  predicate Covers(intervals: seq<Interval>, t: TimeOfDay) {
    exists k :: 0 <= k < |intervals| && intervals[k].0 <= t < intervals[k].1
  }

  /** A clipped period covers exactly the times of the window the period admits. */
  lemma ClipCovers(p: Period, st: TimeOfDay, et: TimeOfDay, t: TimeOfDay)
    requires !IsAllDay(p)
    ensures (Clip(p, st, et).Some? && Clip(p, st, et).value.0 <= t < Clip(p, st, et).value.1)
            <==> (st <= t < et && SearchUtils.Admits(p, t))
  {
  }

  lemma {:induction false} ClipAllCovers(periods: seq<Period>, st: TimeOfDay, et: TimeOfDay, t: TimeOfDay)
    ensures Covers(ClipAll(periods, st, et), t)
            <==> (st <= t < et && exists k :: 0 <= k < |periods| && !IsAllDay(periods[k])
                                            && SearchUtils.Admits(periods[k], t))
    decreases |periods|
  {
    if |periods| > 0 {
      var rest := ClipAll(periods[1..], st, et);
      ClipAllCovers(periods[1..], st, et, t);
      AdmittedSomewhereSplits(periods, t);
      if !IsAllDay(periods[0]) {
        ClipCovers(periods[0], st, et, t);
      }
      match Clip(periods[0], st, et)
      case None =>
      case Some(i) =>
        CoversCons(i, rest, t);
    }
  }

  /** A time is covered by a leading interval and the rest exactly when the
      interval or the rest covers it. */
  lemma CoversCons(i: Interval, rest: seq<Interval>, t: TimeOfDay)
    ensures Covers([i] + rest, t) <==> (i.0 <= t < i.1 || Covers(rest, t))
  {
    var all := [i] + rest;
    assert all[0] == i;
    assert forall k :: 0 <= k < |rest| ==> all[k + 1] == rest[k];
    if Covers(all, t) {
      var k :| 0 <= k < |all| && all[k].0 <= t < all[k].1;
      if k > 0 {
        assert rest[k - 1] == all[k];
      }
    }
  }

  /** Some non-all-day period admits a time exactly when the first one does or
      one of the others does. */
  lemma AdmittedSomewhereSplits(periods: seq<Period>, t: TimeOfDay)
    requires |periods| > 0
    ensures (exists k :: 0 <= k < |periods| && !IsAllDay(periods[k]) && SearchUtils.Admits(periods[k], t))
            <==> ((!IsAllDay(periods[0]) && SearchUtils.Admits(periods[0], t))
                  || exists k :: 0 <= k < |periods[1..]| && !IsAllDay(periods[1..][k])
                                 && SearchUtils.Admits(periods[1..][k], t))
  {
    var tail := periods[1..];
    assert forall k :: 0 <= k < |tail| ==> tail[k] == periods[k + 1];
    if exists k :: 0 <= k < |periods| && !IsAllDay(periods[k]) && SearchUtils.Admits(periods[k], t) {
      var k :| 0 <= k < |periods| && !IsAllDay(periods[k]) && SearchUtils.Admits(periods[k], t);
      if k > 0 {
        assert tail[k - 1] == periods[k];
      }
    }
  }

  /** Unless the day opens with an all-day period, the intervals cover a time
      exactly when it lies in [start, end) and some period of the day that is
      not all-day admits it. */
  lemma IntervalsCoverOpenTimes(place: Place, start: DateTime, end: DateTime, t: TimeOfDay)
    requires GetIntervals(place, start, end).Ok?
    ensures var day := place.openingHours.value[Weekday(start.date)];
            var r := GetIntervals(place, start, end).value;
            |day| > 0 && IsAllDay(day[0]) ==> (Covers(r, t) <==> start.time <= t < end.time)
    ensures var day := place.openingHours.value[Weekday(start.date)];
            var r := GetIntervals(place, start, end).value;
            !(|day| > 0 && IsAllDay(day[0])) ==>
              (Covers(r, t) <==> (start.time <= t < end.time
                                  && exists k :: 0 <= k < |day| && !IsAllDay(day[k]) && SearchUtils.Admits(day[k], t)))
  {
    var day := place.openingHours.value[Weekday(start.date)];
    ClipAllCovers(day, start.time, end.time, t);
    if |day| > 0 && IsAllDay(day[0]) {
      var r := GetIntervals(place, start, end).value;
      assert r == [(start.time, end.time)];
      assert start.time <= t < end.time ==> r[0].0 <= t < r[0].1;
    }
  }

  predicate WellOrdered(p: Period) {
    p.start.Some? && p.end.Some? ==> p.start.value <= p.end.value
  }

  /** With an ordered window and ordered periods, every interval is ordered
      and lies inside the window. */
  lemma {:induction false} ClipAllWithinWindow(periods: seq<Period>, st: TimeOfDay, et: TimeOfDay)
    requires st <= et
    requires forall k :: 0 <= k < |periods| ==> WellOrdered(periods[k])
    ensures forall k :: 0 <= k < |ClipAll(periods, st, et)| ==>
              var (a, b) := ClipAll(periods, st, et)[k];
              st <= a <= b <= et
    decreases |periods|
  {
    if |periods| > 0 {
      assert forall k :: 0 <= k < |periods| - 1 ==> periods[1..][k] == periods[k + 1];
      ClipAllWithinWindow(periods[1..], st, et);
    }
  }

  lemma IntervalsWithinWindow(place: Place, start: DateTime, end: DateTime)
    requires GetIntervals(place, start, end).Ok?
    requires start.time <= end.time
    requires forall k :: 0 <= k < |place.openingHours.value[Weekday(start.date)]| ==>
               WellOrdered(place.openingHours.value[Weekday(start.date)][k])
    ensures forall k :: 0 <= k < |GetIntervals(place, start, end).value| ==>
              var (a, b) := GetIntervals(place, start, end).value[k];
              start.time <= a <= b <= end.time
  {
    ClipAllWithinWindow(place.openingHours.value[Weekday(start.date)], start.time, end.time);
  }

  // ------------------------------------------------------------------------
  // The schedule sentence of one weekday
  // ------------------------------------------------------------------------

  const Weekdays: seq<string> := ["Monday", "Tuesday", "Wednesday", "Thursday", "Friday", "Saturday", "Sunday"]

  /** A period that `_get_day_schedule` mentions: it drops (None, 00:00), the
      tail of a night that began the day before. */
  predicate InSchedule(p: Period) {
    p.start.Some? || p.end != Some(Midnight)
  }

  /** The text put in front of the `idx`-th of `n` periods. */
  function Separator(idx: nat, n: nat, day: string, name: string): string {
    if idx == 0 then "on " + day + ", " + name + " is open "
    else if idx == n - 1 then " and "
    else ", "
  }

  /** How a period that is not all-day is read out. */
  function DescribePeriod(p: Period, fmt: TimeOfDay -> string): string {
    match (p.start, p.end)
    case (None, Some(e)) => "until " + fmt(e)
    case (Some(s), None) => fmt(s)
    case (Some(s), Some(e)) => "from " + fmt(s) + " to " + fmt(e)
    case (None, None) => "all day"
  }

  /** One turn of the source's loop: an all-day period replaces the whole
      message, any other period is appended after its separator. */
  function ScheduleStep(msg: string, ps: seq<Period>, i: nat, day: string, name: string,
                        fmt: TimeOfDay -> string): string
    requires i < |ps|
  {
    if IsAllDay(ps[i]) then "all day"
    else msg + Separator(i, |ps|, day, name) + DescribePeriod(ps[i], fmt)
  }

  function ScheduleLoop(ps: seq<Period>, i: nat, msg: string, day: string, name: string,
                        fmt: TimeOfDay -> string): string
    requires i <= |ps|
    decreases |ps| - i
  {
    if i == |ps| then msg
    else ScheduleLoop(ps, i + 1, ScheduleStep(msg, ps, i, day, name, fmt), day, name, fmt)
  }

  /** `_get_day_schedule` as written. */
  function DaySchedule(place: Place, wd: int, name: string, fmt: TimeOfDay -> string): (r: Result<string>)
    ensures place.openingHours.None? ==> r == Err(RuntimeError)
    ensures place.openingHours.Some? ==>
              (r.Err? <==> !(-7 <= wd < 7) || PyIndex(place.openingHours.value, wd).Err?)
    ensures r.Ok? ==> var periods := PyIndex(place.openingHours.value, wd).value;
              var day := PyIndex(Weekdays, wd).value;
              (forall k :: 0 <= k < |periods| ==> !InSchedule(periods[k]))
              ==> r.value == "on " + day + ", " + name + " is closed"
  {
    match place.openingHours
    case None => Err(RuntimeError)
    case Some(hours) =>
      var day :- PyIndex(Weekdays, wd);
      var periods :- PyIndex(hours, wd);
      var kept := Filter(periods, InSchedule);
      if |kept| == 0 then Ok("on " + day + ", " + name + " is closed")
      else Ok(ScheduleLoop(kept, 0, "", day, name, fmt))
  }

  /** The listing the loop builds when no all-day period follows position `from`. */
  function Listing(ps: seq<Period>, from: nat, day: string, name: string, fmt: TimeOfDay -> string): string
    requires from <= |ps|
    decreases |ps| - from
  {
    if from == |ps| then ""
    else Separator(from, |ps|, day, name) + DescribePeriod(ps[from], fmt) + Listing(ps, from + 1, day, name, fmt)
  }

  /** Position of the last all-day period, if any. */
  function LastAllDay(ps: seq<Period>): (r: Option<nat>)
    ensures r.Some? ==> r.value < |ps| && IsAllDay(ps[r.value])
    ensures r.Some? ==> forall j :: r.value < j < |ps| ==> !IsAllDay(ps[j])
    ensures r.None? ==> forall j :: 0 <= j < |ps| ==> !IsAllDay(ps[j])
    decreases |ps|
  {
    if |ps| == 0 then None
    else if IsAllDay(ps[|ps| - 1]) then Some(|ps| - 1)
    else LastAllDay(ps[..|ps| - 1])
  }

  /** What the loop from position `i` on produces: "all day" followed by the
      periods after the last all-day one when that lies ahead, and otherwise
      the message so far followed by the listing of the remaining periods. */
  function LoopOutcome(ps: seq<Period>, i: nat, msg: string, day: string, name: string,
                       fmt: TimeOfDay -> string): string
    requires i <= |ps|
  {
    match LastAllDay(ps)
    case Some(last) =>
      if last >= i then "all day" + Listing(ps, last + 1, day, name, fmt)
      else msg + Listing(ps, i, day, name, fmt)
    case None => msg + Listing(ps, i, day, name, fmt)
  }

  lemma {:induction false} ScheduleLoopShape(ps: seq<Period>, i: nat, msg: string, day: string, name: string,
                                             fmt: TimeOfDay -> string)
    requires i <= |ps|
    ensures ScheduleLoop(ps, i, msg, day, name, fmt) == LoopOutcome(ps, i, msg, day, name, fmt)
    decreases |ps| - i
  {
    if i < |ps| {
      var next := ScheduleStep(msg, ps, i, day, name, fmt);
      ScheduleLoopShape(ps, i + 1, next, day, name, fmt);
      UnfoldScheduleLoop(ps, i, msg, day, name, fmt);
      OutcomeStep(ps, i, msg, day, name, fmt);
    } else {
      assert Listing(ps, i, day, name, fmt) == "";
      assert msg + "" == msg;
    }
  }

  /** One turn of the loop moves the outcome one position on unchanged. */
  lemma OutcomeStep(ps: seq<Period>, i: nat, msg: string, day: string, name: string, fmt: TimeOfDay -> string)
    requires i < |ps|
    ensures LoopOutcome(ps, i + 1, ScheduleStep(msg, ps, i, day, name, fmt), day, name, fmt)
            == LoopOutcome(ps, i, msg, day, name, fmt)
  {
    var last := LastAllDay(ps);
    var next := ScheduleStep(msg, ps, i, day, name, fmt);
    if IsAllDay(ps[i]) {
      assert next == "all day";
      assert last.Some? && last.value >= i;
    } else if last.Some? && last.value >= i {
      assert last.value != i;
    } else {
      ListingStep(ps, i, msg, day, name, fmt);
    }
  }

  lemma UnfoldScheduleLoop(ps: seq<Period>, i: nat, msg: string, day: string, name: string,
                           fmt: TimeOfDay -> string)
    requires i < |ps|
    ensures ScheduleLoop(ps, i, msg, day, name, fmt)
            == ScheduleLoop(ps, i + 1, ScheduleStep(msg, ps, i, day, name, fmt), day, name, fmt)
  {
  }

  /** A period that is not all-day adds its piece of the listing. */
  lemma ListingStep(ps: seq<Period>, i: nat, msg: string, day: string, name: string, fmt: TimeOfDay -> string)
    requires i < |ps| && !IsAllDay(ps[i])
    ensures ScheduleStep(msg, ps, i, day, name, fmt) + Listing(ps, i + 1, day, name, fmt)
            == msg + Listing(ps, i, day, name, fmt)
  {
    var piece := Separator(i, |ps|, day, name) + DescribePeriod(ps[i], fmt);
    var rest := Listing(ps, i + 1, day, name, fmt);
    assert ScheduleStep(msg, ps, i, day, name, fmt) == msg + piece;
    assert Listing(ps, i, day, name, fmt) == piece + rest;
    assert (msg + piece) + rest == msg + (piece + rest);
  }

  /** The all-day rule: the sentence restarts at the last all-day period, so
      it reads "all day" followed by the periods after it, and whatever came
      before it — the "on {day}, {name} is open" opening included — is lost.
      Without an all-day period the sentence lists every period. */
  lemma DayScheduleShape(place: Place, wd: int, name: string, fmt: TimeOfDay -> string)
    requires DaySchedule(place, wd, name, fmt).Ok?
    ensures var kept := Filter(PyIndex(place.openingHours.value, wd).value, InSchedule);
            var day := PyIndex(Weekdays, wd).value;
            var r := DaySchedule(place, wd, name, fmt).value;
            && (|kept| > 0 && LastAllDay(kept).Some? ==>
                  r == "all day" + Listing(kept, LastAllDay(kept).value + 1, day, name, fmt))
            && (|kept| > 0 && LastAllDay(kept).None? ==> r == Listing(kept, 0, day, name, fmt))
  {
    var kept := Filter(PyIndex(place.openingHours.value, wd).value, InSchedule);
    var day := PyIndex(Weekdays, wd).value;
    if |kept| > 0 {
      ScheduleLoopShape(kept, 0, "", day, name, fmt);
      var listing := Listing(kept, 0, day, name, fmt);
      assert "" + listing == listing;
      assert DaySchedule(place, wd, name, fmt).value == ScheduleLoop(kept, 0, "", day, name, fmt);
    }
  }

  /** A place open around the clock on Mondays is described as just "all
      day": the weekday and the place are not named. */
  lemma AllDayLosesTheDay(name: string, fmt: TimeOfDay -> string)
    ensures var place := Places.Place(None, None, None, None, None, None, Some([[Period(None, None)]]));
            DaySchedule(place, 0, name, fmt) == Ok("all day")
  {
    var periods := [Period(None, None)];
    assert Filter(periods, InSchedule) == periods by {
      assert InSchedule(periods[0]);
      assert periods[1..] == [];
    }
  }

  /** The schedule sentence with the all-day case read the way the rest of
      the sentence is built: "open all day" is appended after its separator
      like any other period. */
  function DayScheduleIntended(place: Place, wd: int, name: string, fmt: TimeOfDay -> string): (r: Result<string>)
    ensures r.Err? <==> DaySchedule(place, wd, name, fmt).Err?
    ensures r.Ok? ==> var day := PyIndex(Weekdays, wd).value;
              && |r.value| >= |"on " + day + ", " + name + " is "|
              && r.value[..|"on " + day + ", " + name + " is "|] == "on " + day + ", " + name + " is "
  {
    match place.openingHours
    case None => Err(RuntimeError)
    case Some(hours) =>
      var day :- PyIndex(Weekdays, wd);
      var periods :- PyIndex(hours, wd);
      var kept := Filter(periods, InSchedule);
      if |kept| == 0 then Ok("on " + day + ", " + name + " is closed")
      else
        var head := "on " + day + ", " + name + " is ";
        assert Separator(0, |kept|, day, name) == head + "open ";
        Ok(Listing(kept, 0, day, name, fmt))
  }

  /** Where there is no all-day period the two readings agree, and the
      intended one reads the around-the-clock Monday as "open all day". */
  lemma IntendedScheduleAgrees(place: Place, wd: int, name: string, fmt: TimeOfDay -> string)
    requires DaySchedule(place, wd, name, fmt).Ok?
    requires LastAllDay(Filter(PyIndex(place.openingHours.value, wd).value, InSchedule)).None?
    ensures DayScheduleIntended(place, wd, name, fmt) == DaySchedule(place, wd, name, fmt)
  {
    DayScheduleShape(place, wd, name, fmt);
  }

  lemma IntendedAllDayNamesTheDay(name: string, fmt: TimeOfDay -> string)
    ensures var place := Places.Place(None, None, None, None, None, None, Some([[Period(None, None)]]));
            DayScheduleIntended(place, 0, name, fmt) == Ok("on Monday, " + name + " is open all day")
  {
    var periods := [Period(None, None)];
    assert Filter(periods, InSchedule) == periods by {
      assert InSchedule(periods[0]);
      assert periods[1..] == [];
    }
    assert PyIndex(Weekdays, 0) == Ok("Monday");
    assert Listing(periods, 1, "Monday", name, fmt) == "";
    assert Listing(periods, 0, "Monday", name, fmt) == "on Monday, " + name + " is open " + "all day";
    assert "on Monday, " + name + " is open " + "all day" == "on Monday, " + name + " is open all day";
    var place := Places.Place(None, None, None, None, None, None, Some([periods]));
    assert DayScheduleIntended(place, 0, name, fmt) == Ok(Listing(periods, 0, "Monday", name, fmt));
  }

  // ------------------------------------------------------------------------
  // Children and price answers
  // ------------------------------------------------------------------------

  /** `name or "it"`. */
  function NameOrIt(name: Option<string>): (r: string)
    ensures Truthy(name) ==> r == name.value
    ensures !Truthy(name) ==> r == "it"
  {
    if Truthy(name) then name.value else "it"
  }

  /** The answer of `_get_good_for_children`, by what the place reports. */
  function GoodForChildren(place: Place, name: Option<string>): (r: string)
    ensures var n := NameOrIt(name);
            var good := place.goodForChildren;
            var menu := place.menuForChildren;
            && (good == Some(true) && menu == Some(true) ==>
                  r == n + " is good for children and it even offers a dedicated menu for them")
            && (good == Some(true) && menu != Some(true) ==> r == n + " is good for children")
            && (good != Some(true) && menu == Some(true) ==> r == n + " offers a dedicated menu for children")
            && (good == Some(false) && menu != Some(true) ==> r == "it seems that " + n + " is not ideal for children")
            && (good.None? && menu == Some(false) ==> r == "it seems that " + n + " is not ideal for children")
            && (good.None? && menu.None? ==>
                  r == "unfortunately, I couldn't find any information about whether " + n + " is ideal for children")
  {
    var n := NameOrIt(name);
    match (place.goodForChildren, place.menuForChildren)
    case (Some(true), None) => n + " is good for children"
    case (Some(true), Some(false)) => n + " is good for children"
    case (None, Some(true)) => n + " offers a dedicated menu for children"
    case (Some(false), Some(true)) => n + " offers a dedicated menu for children"
    case (Some(true), Some(true)) => n + " is good for children and it even offers a dedicated menu for them"
    case (Some(false), Some(false)) => "it seems that " + n + " is not ideal for children"
    case (Some(false), None) => "it seems that " + n + " is not ideal for children"
    case (None, Some(false)) => "it seems that " + n + " is not ideal for children"
    case (None, None) => "unfortunately, I couldn't find any information about whether " + n + " is ideal for children"
  }

  /** Only a place that reports neither field gets the "couldn't find" answer. */
  lemma ChildrenUnknownOnlyWithoutData(place: Place, name: Option<string>)
    ensures GoodForChildren(place, name)
            == "unfortunately, I couldn't find any information about whether " + NameOrIt(name) + " is ideal for children"
            <==> place.goodForChildren.None? && place.menuForChildren.None?
  {
    var n := NameOrIt(name);
    var unknown := "unfortunately, I couldn't find any information about whether " + n + " is ideal for children";
    var r := GoodForChildren(place, name);
    assert |unknown| == |n| + 83;
    if !(place.goodForChildren.None? && place.menuForChildren.None?) {
      assert |r| <= |n| + 66;
    }
  }

  /** The answer of `_get_price_level`. */
  function PriceLevelAnswer(place: Place, name: Option<string>): (r: string)
    ensures var n := NameOrIt(name);
            (place.priceLevel.None? || place.priceLevel == Some(Unspecified))
            <==> r == "unfortunately, I couldn't find a price level for " + n
    ensures var n := NameOrIt(name);
            && (place.priceLevel == Some(Free) ==> r == n + " is free")
            && (place.priceLevel == Some(Inexpensive) ==> r == n + " is cheap")
            && (place.priceLevel == Some(Moderate) ==> r == n + " is moderately priced")
            && (place.priceLevel == Some(Expensive) ==> r == n + " is expensive")
            && (place.priceLevel == Some(VeryExpensive) ==> r == n + " is very expensive")
  {
    var n := NameOrIt(name);
    match place.priceLevel
    case None => "unfortunately, I couldn't find a price level for " + n
    case Some(Unspecified) => "unfortunately, I couldn't find a price level for " + n
    case Some(Free) => n + " is free"
    case Some(Inexpensive) => n + " is cheap"
    case Some(Moderate) => n + " is moderately priced"
    case Some(Expensive) => n + " is expensive"
    case Some(VeryExpensive) => n + " is very expensive"
  }
}
