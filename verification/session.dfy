/** The conversation-level actions of `actions/_misc.py`: starting a session
    with the previous session's slots carried over, and greeting. */
module Session {
  import opened Wrappers
  import opened RasaUtils

  const ErrorCountSlot: string := "num_internal_errors"
  const UserLocationSlot: string := "user_location"
  const KnownUserSlot: string := "known_user"
  const ActionListen: string := "action_listen"

  /** The slots a new session does not inherit. */
  const Excluded: set<string> := {ErrorCountSlot, UserLocationSlot}

  /** The tracker's slots as `tracker.slots.items()` lists them: a dictionary,
      so no name occurs twice. */
  predicate DistinctNames(items: seq<(string, Value)>) {
    forall a, b :: 0 <= a < b < |items| ==> items[a].0 != items[b].0
  }

  /** Whether a slot is carried into the new session: it is set and not
      excluded. */
  predicate Carries(item: (string, Value)) {
    item.1 != Null && item.0 !in Excluded
  }

  /** The `SlotSet` events re-creating the carried slots, in dictionary order. */
  function Carried(items: seq<(string, Value)>): (r: seq<Event>)
    ensures |r| <= |items|
    decreases |items|
  {
    if |items| == 0 then []
    else
      var last := items[|items| - 1];
      Carried(items[..|items| - 1]) + (if Carries(last) then [SlotSet(last.0, last.1)] else [])
  }

  /** `action_session_start`. */
  function SessionStart(items: seq<(string, Value)>): (r: seq<Event>)
    ensures |r| >= 4 && r[0] == SessionStarted && r[|r| - 1] == ActionExecuted(ActionListen)
    ensures r[|r| - 3] == SlotSet(ErrorCountSlot, Int(0)) && r[|r| - 2] == SlotSet(UserLocationSlot, Null)
    ensures r[1..|r| - 3] == Carried(items)
  {
    [SessionStarted] + Carried(items)
    + [SlotSet(ErrorCountSlot, Int(0)), SlotSet(UserLocationSlot, Null), ActionExecuted(ActionListen)]
  }

  /** Events appended one at a time act one at a time. */
  lemma ApplySnoc(slots: Slots, events: seq<Event>, e: Event)
    ensures ApplyEvents(slots, events + [e])
            == match e
               case SlotSet(name, v) => ApplyEvents(slots, events)[name := v]
               case Restarted => map[]
               case SessionStarted => map[]
               case _ => ApplyEvents(slots, events)
  {
    assert (events + [e])[..|events|] == events;
  }

  /** Whether some listed slot named `name` is carried. */
  predicate CarriesName(items: seq<(string, Value)>, name: string) {
    exists k :: 0 <= k < |items| && items[k].0 == name && Carries(items[k])
  }

  lemma CarriesNameSnoc(items: seq<(string, Value)>, name: string)
    requires |items| > 0
    ensures var n := |items|;
            CarriesName(items, name)
            <==> CarriesName(items[..n - 1], name) || (items[n - 1].0 == name && Carries(items[n - 1]))
  {
    var n := |items|;
    var init := items[..n - 1];
    if CarriesName(items, name) {
      var k :| 0 <= k < n && items[k].0 == name && Carries(items[k]);
      if k < n - 1 {
        assert init[k] == items[k];
      }
    }
    if CarriesName(init, name) {
      var k :| 0 <= k < n - 1 && init[k].0 == name && Carries(init[k]);
      assert items[k] == init[k];
    }
  }

  /** Carrying one more slot sets it on top of the others. */
  lemma CarriedStep(slots: Slots, items: seq<(string, Value)>)
    requires |items| > 0
    ensures var n := |items|;
            var s0 := ApplyEvents(slots, [SessionStarted] + Carried(items[..n - 1]));
            ApplyEvents(slots, [SessionStarted] + Carried(items))
            == if Carries(items[n - 1]) then s0[items[n - 1].0 := items[n - 1].1] else s0
  {
    var n := |items|;
    var last := items[n - 1];
    var events := [SessionStarted] + Carried(items[..n - 1]);
    if Carries(last) {
      assert [SessionStarted] + Carried(items) == events + [SlotSet(last.0, last.1)];
      ApplySnoc(slots, events, SlotSet(last.0, last.1));
    } else {
      assert [SessionStarted] + Carried(items) == events;
    }
  }

  /** After the carried slots are set on a fresh session, exactly the carried
      names are present, each holding its old value. */
  lemma {:induction false} CarriedSlots(slots: Slots, items: seq<(string, Value)>)
    requires DistinctNames(items)
    ensures var s := ApplyEvents(slots, [SessionStarted] + Carried(items));
            && (forall name :: name in s <==> CarriesName(items, name))
            && (forall k :: 0 <= k < |items| && Carries(items[k]) ==> items[k].0 in s && s[items[k].0] == items[k].1)
    decreases |items|
  {
    if |items| == 0 {
      assert [SessionStarted] + [] == [] + [SessionStarted];
      ApplySnoc(slots, [], SessionStarted);
    } else {
      var n := |items|;
      var init := items[..n - 1];
      var last := items[n - 1];
      assert DistinctNames(init) by {
        forall a, b | 0 <= a < b < |init| ensures init[a].0 != init[b].0 {
          assert init[a] == items[a] && init[b] == items[b];
        }
      }
      CarriedSlots(slots, init);
      var s0 := ApplyEvents(slots, [SessionStarted] + Carried(init));
      var s := ApplyEvents(slots, [SessionStarted] + Carried(items));
      CarriedStep(slots, items);
      forall name ensures name in s <==> CarriesName(items, name) {
        CarriesNameSnoc(items, name);
      }
      forall k | 0 <= k < n && Carries(items[k]) ensures items[k].0 in s && s[items[k].0] == items[k].1 {
        if k < n - 1 {
          assert items[k] == init[k];
          assert items[k].0 != last.0;
        }
      }
    }
  }

  /** The new session holds exactly the previous session's set slots other
      than the excluded ones, with their values, plus an error counter of
      zero and an unset user location. */
  lemma SessionCarriesOver(slots: Slots, items: seq<(string, Value)>)
    requires DistinctNames(items)
    ensures var s := ApplyEvents(slots, SessionStart(items));
            && (forall k :: 0 <= k < |items| && Carries(items[k]) ==> GetSlot(s, items[k].0, Null) == items[k].1)
            && (forall name :: name !in Excluded ==> (name in s <==> CarriesName(items, name)))
            && GetSlot(s, ErrorCountSlot, Null) == Int(0)
            && GetSlot(s, UserLocationSlot, Null) == Null
  {
    var carried := [SessionStarted] + Carried(items);
    CarriedSlots(slots, items);
    var e1 := SlotSet(ErrorCountSlot, Int(0));
    var e2 := SlotSet(UserLocationSlot, Null);
    var e3 := ActionExecuted(ActionListen);
    ApplySnoc(slots, carried, e1);
    ApplySnoc(slots, carried + [e1], e2);
    ApplySnoc(slots, carried + [e1] + [e2], e3);
    assert SessionStart(items) == carried + [e1] + [e2] + [e3];
  }

  /** `action_greet`: the first greeting marks the user as known. */
  function Greet(slots: Slots): (r: Reply)
    ensures !IsTruthy(GetSlot(slots, KnownUserSlot, Bool(false))) <==> r.responses == ["utter_first_greet"]
    ensures !IsTruthy(GetSlot(slots, KnownUserSlot, Bool(false))) ==> r.events == [SlotSet(KnownUserSlot, Bool(true))]
    ensures IsTruthy(GetSlot(slots, KnownUserSlot, Bool(false))) ==> r == Reply([], ["utter_greet"])
  {
    if !IsTruthy(GetSlot(slots, KnownUserSlot, Bool(false))) then
      Reply([SlotSet(KnownUserSlot, Bool(true))], ["utter_first_greet"])
    else
      Reply([], ["utter_greet"])
  }

  /** Only the first greeting is the first: greeting again after it gives the
      ordinary greeting and changes nothing. */
  lemma SecondGreetingIsOrdinary(slots: Slots)
    ensures var after := ApplyEvents(slots, Greet(slots).events);
            Greet(after) == Reply([], ["utter_greet"])
  {
    var r := Greet(slots);
    if r.events != [] {
      GetSlotAfterSet(slots, [], KnownUserSlot, Bool(true), Bool(false));
      assert r.events == [] + [SlotSet(KnownUserSlot, Bool(true))];
    }
  }

  /** A session start forgets nothing the greeting relies on: a user greeted
      before is still known in the new session. */
  lemma KnownUserSurvivesSession(slots: Slots, items: seq<(string, Value)>)
    requires DistinctNames(items)
    requires exists k :: 0 <= k < |items| && items[k] == (KnownUserSlot, Bool(true))
    ensures Greet(ApplyEvents(slots, SessionStart(items))) == Reply([], ["utter_greet"])
  {
    var k :| 0 <= k < |items| && items[k] == (KnownUserSlot, Bool(true));
    SessionCarriesOver(slots, items);
    assert Carries(items[k]);
  }
}
