/** `utils/_rasa.py` together with the slice of the Rasa tracker it reads.
    Slots are a map from names to tagged values (a slot set to None holds
    `Null`), the events an action returns are tagged records, and the tracker
    is reduced to its slots, latest message, event log and active loop. */
module RasaUtils {
  import opened Wrappers
  import opened Strings
  import opened Seqs
  import opened Calendar
  import opened Places
  import opened Keys

  // ------------------------------------------------------------------------
  // Tracker and events
  // ------------------------------------------------------------------------

  /** The slot values the modelled actions read and write. */
  datatype Value =
    | Null
    | Bool(b: bool)
    | Int(i: int)
    | Text(s: string)
    | Ints(ints: seq<int>)
    | KeyList(keys: seq<Option<Key>>)
    | PlaceValue(place: Place)
    | DateTimeValue(dt: DateTime)
    | LocationIssues(issues: seq<LocationIssue>)

  /** One entry of the search location's error list: why the location was
      not set, and the text that was looked up, if any. */
  datatype LocationIssue = LocationIssue(reason: string, location: Option<string>)

  type Slots = map<string, Value>

  /** Python's truth value of a slot value: None, False, 0 and empty strings
      and lists are false. */
  predicate IsTruthy(v: Value) {
    match v
    case Null => false
    case Bool(b) => b
    case Int(i) => i != 0
    case Text(s) => |s| > 0
    case Ints(xs) => |xs| > 0
    case KeyList(ks) => |ks| > 0
    case PlaceValue(_) => true
    case DateTimeValue(_) => true
    case LocationIssues(issues) => |issues| > 0
  }

  /** An extracted entity; a missing role or group reads as "". `correct` is
      the `is_correct` flag the semantic checker attaches, true when absent. */
  datatype Entity = Entity(entityType: string, role: Option<string>, group: Option<string>, value: string,
                           correct: bool)

  /** The latest user message: the intent name (None when the message has no
      intent), the entities and the raw text. */
  datatype Message = Message(intent: Option<string>, entities: seq<Entity>, text: string)

  /** The parts of the tracker's event log the actions inspect. */
  datatype LoggedEvent =
    | UserUttered(intentName: string, userEntities: seq<Entity>)
    | ActionRun(name: string)
    | OtherLogged

  datatype Tracker = Tracker(slots: Slots, latest: Message, log: seq<LoggedEvent>, activeLoop: Option<string>)

  /** The events an action returns to Rasa. */
  datatype Event =
    | SlotSet(slot: string, value: Value)
    | ActionExecuted(action: string)
    | Restarted
    | SessionStarted
    | FollowupAction(next: string)

  /** What Rasa does with returned events to the slot map: `SlotSet` assigns,
      a restart or a new session wipes every slot, other events leave them. */
  function ApplyEvents(slots: Slots, events: seq<Event>): (r: Slots)
    decreases |events|
  {
    if |events| == 0 then slots
    else
      var last := events[|events| - 1];
      var before := ApplyEvents(slots, events[..|events| - 1]);
      match last
      case SlotSet(name, v) => before[name := v]
      case Restarted => map[]
      case SessionStarted => map[]
      case _ => before
  }

  // ------------------------------------------------------------------------
  // Slots
  // ------------------------------------------------------------------------

  /** `get_slot`: the slot's value, or `default` when it is missing or None. */
  function GetSlot(slots: Slots, name: string, default: Value): (r: Value)
    ensures r == default || (name in slots && r == slots[name] != Null)
    ensures r != default ==> name in slots && slots[name] != Null
    ensures name !in slots || slots[name] == Null ==> r == default
  {
    if name in slots && slots[name] != Null then slots[name] else default
  }

  /** A value set by `SlotSet` is what `get_slot` reads back afterwards, and
      setting a slot to None makes `get_slot` fall back to its default. */
  lemma GetSlotAfterSet(slots: Slots, events: seq<Event>, name: string, v: Value, default: Value)
    ensures GetSlot(ApplyEvents(slots, events + [SlotSet(name, v)]), name, default)
            == (if v == Null then default else v)
  {
    assert (events + [SlotSet(name, v)])[..|events|] == events;
  }

  /** Other slots are not touched by a `SlotSet`. */
  lemma {:induction false} OtherSlotsAfterSet(slots: Slots, events: seq<Event>, name: string, other: string, v: Value, default: Value)
    requires name != other
    ensures GetSlot(ApplyEvents(slots, events + [SlotSet(name, v)]), other, default)
            == GetSlot(ApplyEvents(slots, events), other, default)
  {
    assert (events + [SlotSet(name, v)])[..|events|] == events;
  }

  /** The last `SlotSet` of a slot decides its value, provided no restart or
      new session follows it. */
  lemma {:induction false} LastSlotSetWins(slots: Slots, events: seq<Event>, k: nat)
    requires k < |events| && events[k].SlotSet?
    requires forall j :: k < j < |events| ==>
               !events[j].Restarted? && !events[j].SessionStarted?
               && !(events[j].SlotSet? && events[j].slot == events[k].slot)
    ensures events[k].slot in ApplyEvents(slots, events)
    ensures ApplyEvents(slots, events)[events[k].slot] == events[k].value
    decreases |events|
  {
    var init := events[..|events| - 1];
    if k < |events| - 1 {
      assert forall j :: k < j < |init| ==> init[j] == events[j];
      LastSlotSetWins(slots, init, k);
    }
  }

  /** A slot that no event sets keeps its value, provided nothing wipes the
      slots. */
  lemma {:induction false} UntouchedSlot(slots: Slots, events: seq<Event>, name: string)
    requires forall j :: 0 <= j < |events| ==>
               !events[j].Restarted? && !events[j].SessionStarted?
               && !(events[j].SlotSet? && events[j].slot == name)
    ensures name in ApplyEvents(slots, events) <==> name in slots
    ensures name in slots ==> ApplyEvents(slots, events)[name] == slots[name]
    decreases |events|
  {
    if |events| > 0 {
      var init := events[..|events| - 1];
      assert forall j :: 0 <= j < |init| ==> init[j] == events[j];
      UntouchedSlot(slots, init, name);
    }
  }

  // ------------------------------------------------------------------------
  // Entities and intents
  // ------------------------------------------------------------------------

  /** The filter `get_entities` applies: the type must match, and the role and
      group filters apply only when they are non-empty strings. */
  predicate MatchesAsWritten(e: Entity, entityType: string, role: Option<string>, group: Option<string>) {
    && e.entityType == entityType
    && (!Truthy(role) || e.role.GetOr("") == role.value)
    && (!Truthy(group) || e.group.GetOr("") == group.value)
  }

  /** The filter the docstring of `get_entities` describes: None means no
      filter, while "" selects the entities without a role (or group). */
  predicate MatchesDocumented(e: Entity, entityType: string, role: Option<string>, group: Option<string>) {
    && e.entityType == entityType
    && (role.None? || e.role.GetOr("") == role.value)
    && (group.None? || e.group.GetOr("") == group.value)
  }

  /** `get_entities` as written. */
  function GetEntities(m: Message, entityType: string, role: Option<string>, group: Option<string>): (r: seq<Entity>)
    ensures |r| <= |m.entities|
    ensures forall k :: 0 <= k < |r| ==>
              r[k] in m.entities && r[k].entityType == entityType
              && (!Truthy(role) || r[k].role.GetOr("") == role.value)
              && (!Truthy(group) || r[k].group.GetOr("") == group.value)
    ensures forall k :: 0 <= k < |m.entities| && MatchesAsWritten(m.entities[k], entityType, role, group) ==>
              m.entities[k] in r
  {
    Filter(m.entities, e => MatchesAsWritten(e, entityType, role, group))
  }

  /** `get_entities` as its docstring describes it. */
  function GetEntitiesDocumented(m: Message, entityType: string, role: Option<string>, group: Option<string>): (r: seq<Entity>)
    ensures |r| <= |m.entities|
    ensures forall k :: 0 <= k < |r| ==>
              r[k] in m.entities && r[k].entityType == entityType
              && (role.None? || r[k].role.GetOr("") == role.value)
              && (group.None? || r[k].group.GetOr("") == group.value)
    ensures forall k :: 0 <= k < |m.entities| && MatchesDocumented(m.entities[k], entityType, role, group) ==>
              m.entities[k] in r
  {
    Filter(m.entities, e => MatchesDocumented(e, entityType, role, group))
  }

  /** `get_entities` goes through the message entity by entity: a lone
      entity is kept exactly when it matches, and the entities of `a + b`
      are those of `a` followed by those of `b`. So the result lists the
      matching entities in message order, each as often as it occurs. */
  lemma GetEntitiesInOrder(m: Message, a: seq<Entity>, b: seq<Entity>, e: Entity,
                           entityType: string, role: Option<string>, group: Option<string>)
    ensures GetEntities(m.(entities := [e]), entityType, role, group)
            == if MatchesAsWritten(e, entityType, role, group) then [e] else []
    ensures GetEntities(m.(entities := a + b), entityType, role, group)
            == GetEntities(m.(entities := a), entityType, role, group)
               + GetEntities(m.(entities := b), entityType, role, group)
  {
    assert [e][1..] == [];
    FilterAppend(a, b, x => MatchesAsWritten(x, entityType, role, group));
  }

  /** The two readings differ only for an empty role or group filter: with
      None or a non-empty filter they select the same entities. */
  lemma EntitiesAgreeUnlessEmptyFilter(m: Message, entityType: string, role: Option<string>, group: Option<string>)
    requires role.None? || |role.value| > 0
    requires group.None? || |group.value| > 0
    ensures GetEntities(m, entityType, role, group) == GetEntitiesDocumented(m, entityType, role, group)
  {
    FilterAgrees(m.entities, e => MatchesAsWritten(e, entityType, role, group),
                 e => MatchesDocumented(e, entityType, role, group));
  }

  /** As written, an empty role filter filters nothing: an entity whose role is
      "guest" passes it, although the docstring says "" picks role-less
      entities only. */
  lemma EmptyRoleFilterIgnored()
    ensures var guest := Entity("person", Some("guest"), None, "Ann", true);
            var m := Message(None, [guest], "");
            && GetEntities(m, "person", Some(""), None) == [guest]
            && GetEntitiesDocumented(m, "person", Some(""), None) == []
  {
    var guest := Entity("person", Some("guest"), None, "Ann", true);
    var m := Message(None, [guest], "");
    assert MatchesAsWritten(guest, "person", Some(""), None);
    assert !MatchesDocumented(guest, "person", Some(""), None) by {
      assert guest.role.GetOr("") == "guest" != "";
    }
  }

  /** `get_entity_values`: the values of the entities `get_entities`
      selects, one per entity and in the same order. */
  function GetEntityValues(m: Message, entityType: string, role: Option<string>, group: Option<string>): (r: seq<string>)
    ensures var es := GetEntities(m, entityType, role, group);
            |r| == |es| && forall k :: 0 <= k < |r| ==> r[k] == es[k].value
  {
    var es := GetEntities(m, entityType, role, group);
    seq(|es|, k requires 0 <= k < |es| => es[k].value)
  }

  /** With an empty role filter, the guest's value is returned as written. */
  lemma EmptyRoleKeepsValues()
    ensures var guest := Entity("person", Some("guest"), None, "Ann", true);
            GetEntityValues(Message(None, [guest], ""), "person", Some(""), None) == ["Ann"]
  {
    EmptyRoleFilterIgnored();
  }

  /** The values of every entity of one type, the only form the actions use. */
  function EntityValues(m: Message, entityType: string): (r: seq<string>)
    ensures forall v :: v in r <==> exists k :: 0 <= k < |m.entities| && m.entities[k].entityType == entityType
                                                && m.entities[k].value == v
  {
    var r := GetEntityValues(m, entityType, None, None);
    var es := GetEntities(m, entityType, None, None);
    assert forall k :: 0 <= k < |m.entities| && m.entities[k].entityType == entityType ==>
             MatchesAsWritten(m.entities[k], entityType, None, None);
    assert forall v :: v in r ==> exists j :: 0 <= j < |es| && es[j].value == v;
    r
  }

  /** `get_intents`: the '+'-separated parts of the intent name. */
  function GetIntents(m: Message): (r: seq<string>)
    ensures m.intent.None? <==> r == []
    ensures m.intent.Some? ==> JoinWith("+", r) == m.intent.value
    ensures forall k :: 0 <= k < |r| ==> '+' !in r[k]
  {
    match m.intent
    case None => []
    case Some(name) =>
      JoinSplitOn(name, '+');
      SplitOn(name, '+')
  }

  // ------------------------------------------------------------------------
  // Counting actions inside a form
  // ------------------------------------------------------------------------

  /** How many times `name` was run in `log`. */
  function Runs(log: seq<LoggedEvent>, name: string): (n: nat)
    ensures n <= |log|
    decreases |log|
  {
    if |log| == 0 then 0
    else (if log[0] == ActionRun(name) then 1 else 0) + Runs(log[1..], name)
  }

  /** Position of the most recent run of `name`, if any. */
  function LastRun(log: seq<LoggedEvent>, name: string): (r: Option<nat>)
    ensures r.Some? ==> r.value < |log| && log[r.value] == ActionRun(name)
    ensures r.Some? ==> forall j :: r.value < j < |log| ==> log[j] != ActionRun(name)
    ensures r.None? ==> forall j :: 0 <= j < |log| ==> log[j] != ActionRun(name)
    decreases |log|
  {
    if |log| == 0 then None
    else if log[|log| - 1] == ActionRun(name) then Some(|log| - 1)
    else LastRun(log[..|log| - 1], name)
  }

  /** `count_action_inside_form`: with a loop active, the runs of `action`
      since the loop's own action last ran. */
  method CountActionInsideForm(t: Tracker, action: string) returns (r: Result<nat>)
    ensures r.Err? <==> t.activeLoop.None?
    ensures r.Err? ==> r.error == RuntimeError
    ensures r.Ok? ==>
              var since := match LastRun(t.log, t.activeLoop.value)
                           case Some(i) => i + 1
                           case None => 0;
              r.value == Runs(t.log[since..], action)
  {
    if t.activeLoop.None? {
      return Err(RuntimeError);
    }
    var form := t.activeLoop.value;
    var count := 0;
    var i := |t.log|;
    while i > 0
      invariant 0 <= i <= |t.log|
      invariant forall j :: i <= j < |t.log| ==> t.log[j] != ActionRun(form)
      invariant count == Runs(t.log[i..], action)
    {
      if t.log[i - 1] == ActionRun(form) {
        break;
      }
      assert t.log[i - 1..][1..] == t.log[i..];
      if t.log[i - 1] == ActionRun(action) {
        count := count + 1;
      }
      i := i - 1;
    }
    assert i == 0 ==> LastRun(t.log, form).None?;
    assert i > 0 ==> LastRun(t.log, form) == Some(i - 1) by {
      if i > 0 {
        LastRunIsUnique(t.log, form, i - 1);
      }
    }
    return Ok(count);
  }

  /** A run of `name` with no later run is the one `LastRun` finds. */
  lemma {:induction false} LastRunIsUnique(log: seq<LoggedEvent>, name: string, i: nat)
    requires i < |log| && log[i] == ActionRun(name)
    requires forall j :: i < j < |log| ==> log[j] != ActionRun(name)
    ensures LastRun(log, name) == Some(i)
    decreases |log|
  {
    if i < |log| - 1 {
      LastRunIsUnique(log[..|log| - 1], name, i);
    }
  }

  // ------------------------------------------------------------------------
  // The exception wrapper
  // ------------------------------------------------------------------------

  /** What an action returns: events, plus what it utters — the name of a
      templated response, or the text of a message it composed. */
  datatype Reply = Reply(events: seq<Event>, responses: seq<string>)

  const ActionBack: string := "action_back"
  const ActionDeactivateLoop: string := "action_deactivate_loop"
  const MaxErrorsResponse: string := "utter_internal_error_max"

  /** The stored error counter as Python adds one to it: a bool counts as 0 or
      1, and any other non-number makes `+ 1` raise TypeError. */
  function StoredErrors(slots: Slots): (r: Result<int>)
    ensures GetSlot(slots, "num_internal_errors", Int(0)).Int? ==>
              r == Ok(GetSlot(slots, "num_internal_errors", Int(0)).i)
    ensures r.Err? ==> r.error == TypeError
  {
    match GetSlot(slots, "num_internal_errors", Int(0))
    case Int(i) => Ok(i)
    case Bool(b) => Ok(if b then 1 else 0)
    case _ => Err(TypeError)
  }

  /** The reply `handle_action_exceptions` substitutes when the wrapped action
      raises: below three errors it records the count and backs out (or leaves
      the active form), from the third on it restarts the conversation. */
  function HandleActionExceptions(t: Tracker): (r: Result<Reply>)
    ensures r.Err? <==> StoredErrors(t.slots).Err?
    ensures r.Ok? ==> var n := StoredErrors(t.slots).value + 1;
              && (n < 3 ==> r.value.responses == []
                            && |r.value.events| == 2
                            && r.value.events[0] == SlotSet("num_internal_errors", Int(n))
                            && r.value.events[1] == ActionExecuted(if t.activeLoop.None? then ActionBack else ActionDeactivateLoop))
              && (n >= 3 ==> r.value == Reply([Restarted], [MaxErrorsResponse]))
  {
    var stored :- StoredErrors(t.slots);
    var n := stored + 1;
    if n < 3 then
      var back := if t.activeLoop.None? then ActionBack else ActionDeactivateLoop;
      Ok(Reply([SlotSet("num_internal_errors", Int(n)), ActionExecuted(back)], []))
    else
      Ok(Reply([Restarted], [MaxErrorsResponse]))
  }

  /** Three failures in a row, starting from a fresh counter, back out twice
      and restart on the third; the restart clears the counter again. */
  lemma ThirdFailureRestarts(t: Tracker)
    requires "num_internal_errors" !in t.slots
    ensures var r1 := HandleActionExceptions(t);
            && r1.Ok? && r1.value.events[0] == SlotSet("num_internal_errors", Int(1))
            && var t2 := t.(slots := ApplyEvents(t.slots, r1.value.events));
               var r2 := HandleActionExceptions(t2);
               && r2.Ok? && r2.value.events[0] == SlotSet("num_internal_errors", Int(2))
               && var t3 := t2.(slots := ApplyEvents(t2.slots, r2.value.events));
                  var r3 := HandleActionExceptions(t3);
                  && r3 == Ok(Reply([Restarted], [MaxErrorsResponse]))
                  && "num_internal_errors" !in ApplyEvents(t3.slots, r3.value.events)
  {
    var r1 := HandleActionExceptions(t);
    var e1 := r1.value.events;
    assert ApplyEvents(t.slots, e1) == t.slots["num_internal_errors" := Int(1)] by {
      assert e1[1].ActionExecuted?;
      assert ApplyEvents(t.slots, e1) == ApplyEvents(t.slots, e1[..1]);
      assert e1[..1][..0] == [];
      assert ApplyEvents(t.slots, e1[..1]) == ApplyEvents(t.slots, [])["num_internal_errors" := Int(1)];
    }
    var t2 := t.(slots := ApplyEvents(t.slots, e1));
    var r2 := HandleActionExceptions(t2);
    var e2 := r2.value.events;
    assert ApplyEvents(t2.slots, e2) == t2.slots["num_internal_errors" := Int(2)] by {
      assert e2[1].ActionExecuted?;
      assert ApplyEvents(t2.slots, e2) == ApplyEvents(t2.slots, e2[..1]);
      assert e2[..1][..0] == [];
      assert ApplyEvents(t2.slots, e2[..1]) == ApplyEvents(t2.slots, [])["num_internal_errors" := Int(2)];
    }
  }

  /** The `run` that `handle_action_exceptions` installs. The dispatcher is
      shared, so the responses the action uttered before it raised stay in
      front of the wrapper's own; an action that returns is passed through. */
  function Guarded(outcome: Result<Reply>, uttered: seq<string>, t: Tracker): (r: Result<Reply>)
    ensures outcome.Ok? ==> r == outcome
    ensures outcome.Err? ==> (r.Ok? <==> StoredErrors(t.slots).Ok?)
    ensures outcome.Err? && r.Ok? ==>
              && r.value.events == HandleActionExceptions(t).value.events
              && |r.value.responses| >= |uttered|
              && r.value.responses[..|uttered|] == uttered
              && r.value.responses[|uttered|..] == HandleActionExceptions(t).value.responses
  {
    match outcome
    case Ok(_) => outcome
    case Err(_) =>
      var handled :- HandleActionExceptions(t);
      var responses := uttered + handled.responses;
      assert responses[..|uttered|] == uttered && responses[|uttered|..] == handled.responses;
      Ok(Reply(handled.events, responses))
  }
}
