/** The Alexa input channel of `connectors/_alexa.py`: routing an Alexa
    request to a user message for the assistant, and rendering the
    assistant's reply as SSML. The webhook, the JSON envelope and the call
    into the assistant are not modelled; the assistant is a parameter from a
    user text, a sender and a locale to the bot messages it sends back. */
module Alexa {
  import opened Wrappers
  import opened Strings
  import Seqs

  // ------------------------------------------------------------------------
  // Rendering a reply as SSML
  // ------------------------------------------------------------------------

  const Break: string := "<break time='500ms'/>"
  const SpeakOpen: string := "<speak>"
  const SpeakClose: string := "</p></speak>"

  /** Whether a reply line renders: `part[0]` needs a character, and a line
      led by a digit is split at its first '.', which must be there. The
      digit test stands for `str.isnumeric` restricted to ASCII digits. */
  predicate LineRenders(part: string) {
    |part| > 0 && (IsDigit(part[0]) ==> '.' in part)
  }

  /** One line of the reply at position `idx`: a '-' bullet is a sentence,
      opening the paragraph on the first line and pausing before it
      otherwise; a numbered line pauses after its number; any other line
      closes the previous paragraph and opens a new one. */
  function RenderLine(idx: nat, part: string): (r: Result<string>)
    ensures r.Ok? <==> LineRenders(part)
    ensures |part| == 0 ==> r == Err(IndexError)
    ensures |part| > 0 && !LineRenders(part) ==> r == Err(ValueError)
  {
    if StartsWith(part, "-") then
      Ok((if idx == 0 then "<p>" else Break) + "<s>" + part + "</s>")
    else if |part| == 0 then Err(IndexError)
    else if IsDigit(part[0]) then
      match SplitOnce(part, '.')
      case None => Err(ValueError)
      case Some((number, text)) =>
        Ok((if idx > 0 then Break else "") + "<s>" + number + "." + Break + text + "</s>")
    else
      Ok((if idx > 0 then "</p>" else "") + "<p><s>" + part + "</s>")
  }

  /** A '-' bullet is a sentence, opening the paragraph on the first line
      and pausing before it otherwise; any other line that is neither
      numbered nor empty closes the previous paragraph and opens a new one. */
  lemma RenderLineShapes(idx: nat, part: string)
    ensures StartsWith(part, "-") ==>
              RenderLine(idx, part) == Ok((if idx == 0 then "<p>" else Break) + "<s>" + part + "</s>")
    ensures LineRenders(part) && !IsDigit(part[0]) && part[0] != '-' ==>
              RenderLine(idx, part) == Ok((if idx > 0 then "</p>" else "") + "<p><s>" + part + "</s>")
  {
  }

  /** A numbered line keeps its number and its text, with a pause between
      them after the first '.'. */
  lemma NumberedLine(idx: nat, number: string, text: string)
    requires |number| > 0 && IsDigit(number[0]) && '.' !in number
    ensures RenderLine(idx, number + "." + text)
            == Ok((if idx > 0 then Break else "") + "<s>" + number + "." + Break + text + "</s>")
  {
    var part := number + "." + text;
    assert part[0] == number[0];
    var split := SplitOnce(part, '.');
    assert split.Some? by { assert part[|number|] == '.'; }
    SplitBeforeFirst(number, text, split.value.0, split.value.1);
  }

  /** Splitting at the first '.' finds the '.' that follows a '.'-free head. */
  lemma SplitBeforeFirst(number: string, text: string, a: string, b: string)
    requires '.' !in number && '.' !in a
    requires number + "." + text == a + "." + b
    ensures a == number && b == text
  {
    var s := number + "." + text;
    assert s[|a|] == '.' && s[|number|] == '.';
    assert forall i :: 0 <= i < |a| ==> s[i] == a[i] && s[i] != '.';
    assert forall i :: 0 <= i < |number| ==> s[i] == number[i] && s[i] != '.';
    assert |a| == |number|;
    assert a == s[..|a|] && number == s[..|number|];
    assert b == s[|a| + 1..] && text == s[|number| + 1..];
  }

  /** Two renderings joined: the first failure wins, otherwise the texts
      are concatenated. */
  function Combine(x: Result<string>, y: Result<string>): (r: Result<string>)
    ensures x.Err? ==> r == x
    ensures x.Ok? && y.Err? ==> r == y
    ensures x.Ok? && y.Ok? ==> r == Ok(x.value + y.value)
  {
    if x.Err? then x else if y.Err? then y else Ok(x.value + y.value)
  }

  /** The lines from position `first` on, rendered and concatenated; the
      first failing line fails the whole reply. */
  function RenderLines(parts: seq<string>, first: nat): (r: Result<string>)
    ensures r.Err? ==> r.error == IndexError || r.error == ValueError
    decreases |parts|
  {
    if |parts| == 0 then Ok("")
    else
      Combine(RenderLine(first, parts[0]), RenderLines(parts[1..], first + 1))
  }

  /** The reply renders exactly when every one of its lines does. */
  lemma {:induction false} RenderLinesSucceedsIff(parts: seq<string>, first: nat)
    ensures RenderLines(parts, first).Ok? <==> forall k :: 0 <= k < |parts| ==> LineRenders(parts[k])
    decreases |parts|
  {
    if |parts| > 0 {
      RenderLinesSucceedsIff(parts[1..], first + 1);
      assert forall k :: 1 <= k < |parts| ==> parts[k] == parts[1..][k - 1];
    }
  }

  /** A reply of one line renders as that line. */
  lemma RenderOneLine(part: string, idx: nat)
    ensures RenderLines([part], idx) == RenderLine(idx, part)
  {
    assert [part][1..] == [];
    if RenderLine(idx, part).Ok? {
      assert RenderLine(idx, part).value + "" == RenderLine(idx, part).value;
    }
  }

  lemma CombineAssociates(x: Result<string>, y: Result<string>, z: Result<string>)
    ensures Combine(x, Combine(y, z)) == Combine(Combine(x, y), z)
  {
    if x.Ok? && y.Ok? && z.Ok? {
      assert x.value + (y.value + z.value) == (x.value + y.value) + z.value;
    }
  }

  /** One step of rendering: the first line, then the rest numbered on. */
  lemma RenderLinesStep(parts: seq<string>, first: nat)
    requires |parts| > 0
    ensures RenderLines(parts, first) == Combine(RenderLine(first, parts[0]), RenderLines(parts[1..], first + 1))
  {
  }

  /** A list of renderings joined in order: the first failure wins. */
  function CombineAll(rs: seq<Result<string>>): Result<string>
    decreases |rs|
  {
    if |rs| == 0 then Ok("") else Combine(rs[0], CombineAll(rs[1..]))
  }

  lemma {:induction false} CombineAllConcat(x: seq<Result<string>>, y: seq<Result<string>>)
    ensures CombineAll(x + y) == Combine(CombineAll(x), CombineAll(y))
    decreases |x|
  {
    if |x| == 0 {
      assert x + y == y;
      if CombineAll(y).Ok? {
        assert "" + CombineAll(y).value == CombineAll(y).value;
      }
    } else {
      assert (x + y)[0] == x[0] && (x + y)[1..] == x[1..] + y;
      CombineAllConcat(x[1..], y);
      CombineAssociates(x[0], CombineAll(x[1..]), CombineAll(y));
    }
  }

  /** Each line of `parts` rendered on its own, numbered from `first`. */
  function LineResults(parts: seq<string>, first: nat): (rs: seq<Result<string>>)
    ensures |rs| == |parts|
    ensures forall k :: 0 <= k < |parts| ==> rs[k] == RenderLine(first + k, parts[k])
  {
    seq(|parts|, k requires 0 <= k < |parts| => RenderLine(first + k, parts[k]))
  }

  lemma LineResultsConcat(a: seq<string>, b: seq<string>, first: nat)
    ensures LineResults(a + b, first) == LineResults(a, first) + LineResults(b, first + |a|)
  {
    var l, r := LineResults(a + b, first), LineResults(a, first) + LineResults(b, first + |a|);
    forall k | 0 <= k < |l| ensures l[k] == r[k] {
      if k < |a| {
        assert (a + b)[k] == a[k];
      } else {
        assert (a + b)[k] == b[k - |a|];
      }
    }
  }

  lemma {:induction false} RenderLinesFolds(parts: seq<string>, first: nat)
    ensures RenderLines(parts, first) == CombineAll(LineResults(parts, first))
    decreases |parts|
  {
    if |parts| > 0 {
      RenderLinesFolds(parts[1..], first + 1);
      var rs := LineResults(parts, first);
      assert rs[1..] == LineResults(parts[1..], first + 1);
      RenderLinesStep(parts, first);
    }
  }

  lemma RenderLinesConcat(a: seq<string>, b: seq<string>, first: nat)
    ensures RenderLines(a + b, first) == Combine(RenderLines(a, first), RenderLines(b, first + |a|))
  {
    var next := first + |a|;
    var x, y := LineResults(a, first), LineResults(b, next);
    assert LineResults(a + b, first) == x + y by { LineResultsConcat(a, b, first); }
    assert RenderLines(a + b, first) == CombineAll(x + y) by { RenderLinesFolds(a + b, first); }
    assert RenderLines(a, first) == CombineAll(x) by { RenderLinesFolds(a, first); }
    assert RenderLines(b, next) == CombineAll(y) by { RenderLinesFolds(b, next); }
    CombineAllConcat(x, y);
  }

  /** Rendering works line by line: the lines of `a + b` render as those of
      `a` followed by those of `b`, numbered on from where `a` stops, and the
      first line that fails, in `a` or else in `b`, fails the whole. */
  lemma RenderLinesAppend(a: seq<string>, b: seq<string>, first: nat)
    ensures RenderLines(a, first).Err? ==> RenderLines(a + b, first) == RenderLines(a, first)
    ensures RenderLines(a, first).Ok? && RenderLines(b, first + |a|).Err? ==>
              RenderLines(a + b, first) == RenderLines(b, first + |a|)
    ensures RenderLines(a, first).Ok? && RenderLines(b, first + |a|).Ok? ==>
              RenderLines(a + b, first) == Ok(RenderLines(a, first).value + RenderLines(b, first + |a|).value)
  {
    RenderLinesConcat(a, b, first);
  }

  /** A list of bullets is one paragraph of sentences with a pause between
      them. */
  lemma BulletPair(a: string, b: string)
    ensures RenderLines(["-" + a, "-" + b], 0) == Ok("<p><s>-" + a + "</s>" + Break + "<s>-" + b + "</s>")
  {
    var parts := ["-" + a, "-" + b];
    assert StartsWith("-" + a, "-") && StartsWith("-" + b, "-");
    var x := "<p>" + "<s>" + ("-" + a) + "</s>";
    var y := Break + "<s>" + ("-" + b) + "</s>";
    assert RenderLine(0, "-" + a) == Ok(x);
    assert RenderLine(1, "-" + b) == Ok(y);
    RenderOneLine("-" + b, 1);
    assert parts[1..] == ["-" + b];
    assert RenderLines(parts, 0) == Ok(x + y);
    assert x + y == "<p><s>-" + a + "</s>" + Break + "<s>-" + b + "</s>";
  }

  predicate IsControl(c: char) {
    1 <= c as int <= 31
  }

  predicate Printable(c: char) {
    !IsControl(c)
  }

  /** `translate` with a table deleting the characters 1 to 31: every other
      character is kept, in order. */
  function StripControls(s: string): (r: string)
    ensures r == Seqs.Filter(s, Printable)
    ensures forall k :: 0 <= k < |r| ==> !IsControl(r[k])
    ensures (forall k :: 0 <= k < |s| ==> !IsControl(s[k])) ==> r == s
    decreases |s|
  {
    if |s| == 0 then ""
    else
      var rest := StripControls(s[1..]);
      assert forall k :: 1 <= k < |s| ==> s[k] == s[1..][k - 1];
      if IsControl(s[0]) then rest else [s[0]] + rest
  }

  lemma {:induction false} StripControlsAppend(a: string, b: string)
    ensures StripControls(a + b) == StripControls(a) + StripControls(b)
    decreases |a|
  {
    if |a| > 0 {
      assert (a + b)[0] == a[0];
      assert (a + b)[1..] == a[1..] + b;
      StripControlsAppend(a[1..], b);
    } else {
      assert a + b == b;
    }
  }

  /** Every occurrence of `c` replaced by `rep`, character by character. */
  function Substitute(s: string, c: char, rep: string): (r: string)
    ensures c !in rep ==> c !in r
    decreases |s|
  {
    if |s| == 0 then ""
    else (if s[0] == c then rep else [s[0]]) + Substitute(s[1..], c, rep)
  }

  /** Replacing a one-character pattern is substituting the character. */
  lemma {:induction false} ReplaceAllOfChar(s: string, c: char, rep: string)
    ensures ReplaceAll(s, [c], rep) == Substitute(s, c, rep)
    decreases |s|
  {
    if |s| > 0 {
      ReplaceAllOfChar(s[1..], c, rep);
      assert s[..1] == [s[0]];
    }
  }

  lemma {:induction false} SubstituteAppend(a: string, b: string, c: char, rep: string)
    ensures Substitute(a + b, c, rep) == Substitute(a, c, rep) + Substitute(b, c, rep)
    decreases |a|
  {
    if |a| > 0 {
      assert (a + b)[0] == a[0];
      assert (a + b)[1..] == a[1..] + b;
      SubstituteAppend(a[1..], b, c, rep);
    } else {
      assert a + b == b;
    }
  }

  lemma {:induction false} SubstituteAbsent(s: string, c: char, rep: string)
    requires c !in s
    ensures Substitute(s, c, rep) == s
    decreases |s|
  {
    if |s| > 0 {
      assert s == [s[0]] + s[1..];
      SubstituteAbsent(s[1..], c, rep);
    }
  }

  /** The clean-up after rendering: control characters are dropped and
      every '&' is spelled "and". */
  function Sanitise(s: string): (r: string)
    ensures r == Substitute(StripControls(s), '&', "and")
    ensures forall k :: 0 <= k < |r| ==> !IsControl(r[k])
    ensures '&' !in r
  {
    var stripped := StripControls(s);
    ReplaceAllOfChar(stripped, '&', "and");
    ReplaceAllRemovesChar(stripped, '&', "and");
    forall c | IsControl(c) ensures c !in ReplaceAll(stripped, "&", "and") {
      assert "and" == ['a', 'n', 'd'];
      ReplaceAllKeepsAbsent(stripped, "&", "and", c);
    }
    ReplaceAll(stripped, "&", "and")
  }

  /** Text the clean-up leaves alone. */
  predicate Clean(s: string) {
    forall k :: 0 <= k < |s| ==> !IsControl(s[k]) && s[k] != '&'
  }

  /** Text that is already clean passes the clean-up unchanged. */
  lemma SanitiseClean(s: string)
    requires Clean(s)
    ensures Sanitise(s) == s
  {
    ReplaceAllOfChar(s, '&', "and");
    SubstituteAbsent(s, '&', "and");
  }

  /** The clean-up works piece by piece: clean text around a middle part
      stays as it is. */
  lemma SanitiseBetween(a: string, x: string, b: string)
    requires Clean(a) && Clean(b)
    ensures Sanitise(a + x + b) == a + Sanitise(x) + b
  {
    var stripped := StripControls(x);
    StripControlsAppend(a + x, b);
    StripControlsAppend(a, x);
    assert StripControls(a + x + b) == a + stripped + b;
    ReplaceAllOfChar(a + stripped + b, '&', "and");
    ReplaceAllOfChar(stripped, '&', "and");
    SubstituteAppend(a + stripped, b, '&', "and");
    SubstituteAppend(a, stripped, '&', "and");
    SubstituteAbsent(a, '&', "and");
    SubstituteAbsent(b, '&', "and");
  }

  lemma FrameIsClean()
    ensures Clean(SpeakOpen) && Clean(SpeakClose)
  {
  }

  /** The SSML `receive` sends for a reply: its lines rendered inside
      `<speak>`, then cleaned. */
  function Ssml(message: string): (r: Result<string>)
    ensures r.Ok? <==> forall k :: 0 <= k < |SplitOn(message, '\n')| ==> LineRenders(SplitOn(message, '\n')[k])
    ensures r.Err? ==> r.error == IndexError || r.error == ValueError
    ensures r.Ok? ==> forall k :: 0 <= k < |r.value| ==> !IsControl(r.value[k])
    ensures r.Ok? ==> '&' !in r.value
    ensures r.Ok? ==> RenderLines(SplitOn(message, '\n'), 0).Ok? &&
                      r.value == SpeakOpen + Sanitise(RenderLines(SplitOn(message, '\n'), 0).value) + SpeakClose
  {
    RenderLinesSucceedsIff(SplitOn(message, '\n'), 0);
    match RenderLines(SplitOn(message, '\n'), 0)
    case Err(e) =>
      assert RenderLines(SplitOn(message, '\n'), 0).Err?;
      Err(e)
    case Ok(body) =>
      FrameIsClean();
      SanitiseBetween(SpeakOpen, body, SpeakClose);
      Ok(Sanitise(SpeakOpen + body + SpeakClose))
  }

  /** A rendered reply is always one `<speak>` element whose last paragraph
      is closed. */
  lemma SsmlIsFramed(message: string)
    requires Ssml(message).Ok?
    ensures StartsWith(Ssml(message).value, SpeakOpen)
    ensures EndsWith(Ssml(message).value, SpeakClose)
  {
    var body := RenderLines(SplitOn(message, '\n'), 0).value;
    FrameIsClean();
    SanitiseBetween(SpeakOpen, body, SpeakClose);
    var r := SpeakOpen + Sanitise(body) + SpeakClose;
    assert r[..|SpeakOpen|] == SpeakOpen;
    assert r[|r| - |SpeakClose|..] == SpeakClose;
  }

  /** A plain line: neither a bullet nor numbered, and clean. */
  predicate PlainLine(line: string) {
    |line| > 0 && line[0] != '-' && !IsDigit(line[0]) && Clean(line)
  }

  /** A one-line plain reply is one paragraph holding one sentence. */
  lemma PlainReply(line: string)
    requires PlainLine(line)
    ensures Ssml(line) == Ok(SpeakOpen + "<p><s>" + line + "</s>" + SpeakClose)
  {
    var body := "<p><s>" + line + "</s>";
    PlainLineIsOneLine(line);
    PlainLineRenders(line);
    PlainBodyIsClean(line);
    SanitiseClean(body);
    SsmlOfBody(line, body);
    FrameAround(SpeakOpen, "<p><s>", line, "</s>", SpeakClose);
  }

  lemma FrameAround(a: string, b: string, x: string, c: string, d: string)
    ensures a + (b + x + c) + d == a + b + x + c + d
  {
  }

  /** A message whose lines render is framed, with only the body sanitised. */
  lemma SsmlOfBody(message: string, body: string)
    requires RenderLines(SplitOn(message, '\n'), 0) == Ok(body)
    ensures Ssml(message) == Ok(SpeakOpen + Sanitise(body) + SpeakClose)
  {
    FrameIsClean();
    SanitiseBetween(SpeakOpen, body, SpeakClose);
  }

  /** A clean line holds no line break, so it splits into itself. */
  lemma PlainLineIsOneLine(line: string)
    requires PlainLine(line)
    ensures SplitOn(line, '\n') == [line]
  {
    assert '\n' !in line by {
      forall k | 0 <= k < |line| ensures line[k] != '\n' {
        assert !IsControl(line[k]);
      }
    }
    assert JoinWith("\n", [line]) == line;
    SplitOnJoin([line], '\n');
  }

  /** A plain line renders as one paragraph holding one sentence. */
  lemma PlainLineRenders(line: string)
    requires PlainLine(line)
    ensures RenderLines([line], 0) == Ok("<p><s>" + line + "</s>")
  {
    assert !StartsWith(line, "-");
    assert RenderLine(0, line) == Ok("" + "<p><s>" + line + "</s>");
    assert "" + "<p><s>" + line + "</s>" == "<p><s>" + line + "</s>";
    RenderOneLine(line, 0);
  }

  lemma PlainBodyIsClean(line: string)
    requires Clean(line)
    ensures Clean("<p><s>" + line + "</s>")
  {
    var body := "<p><s>" + line + "</s>";
    forall k | 0 <= k < |body| ensures !IsControl(body[k]) && body[k] != '&' {
      if k >= 6 && k < 6 + |line| {
        assert body[k] == line[k - 6];
      }
    }
  }

  // ------------------------------------------------------------------------
  // Handling a request
  // ------------------------------------------------------------------------

  const RepeatPrompt: string := "Could you please repeat that?"
  const EnglishOnly: string := "Sorry, this skill only supports English."
  const NoResponse: string := "Sorry, can you repeat that please?"

  /** The fields of an Alexa request the channel reads. The intent name and
      the slot text are absent for request types that do not carry them. */
  datatype Payload = Payload(locale: string, userId: string, requestType: string,
                             intentName: Option<string>, slotText: Option<string>)

  /** Where a request leads: straight to a spoken answer, or to a user
      message for the assistant. */
  datatype Routed = Answer(message: string, endSession: bool) | Forward(text: string, endSession: bool)

  /** The routing of `_handle_request`. */
  function Route(payload: Option<Payload>): (r: Result<Routed>)
    ensures payload.None? ==> r == Ok(Answer(RepeatPrompt, false))
    ensures payload.Some? && !StartsWith(payload.value.locale, "en") ==> r == Ok(Answer(EnglishOnly, true))
    ensures r.Ok? && r.value.Forward? ==> payload.Some? && StartsWith(payload.value.locale, "en")
  {
    match payload
    case None => Ok(Answer(RepeatPrompt, false))
    case Some(p) =>
      if !StartsWith(p.locale, "en") then Ok(Answer(EnglishOnly, true))
      else if p.requestType == "CanFulfillIntentRequest" then Err(NotImplementedError)
      else if p.requestType == "LaunchRequest" then Ok(Forward("hi", false))
      else if p.requestType == "IntentRequest" then
        match p.intentName
        case None => Err(KeyError)
        case Some(intent) =>
          if intent == "AMAZON.StopIntent" then Ok(Forward("goodbye", true))
          else if intent == "AMAZON.HelpIntent" then Ok(Forward("help", false))
          else if intent == "AMAZON.CancelIntent" then Ok(Forward("cancel", false))
          else if intent == "ReturnUserInput" then
            (match p.slotText
             case None => Err(KeyError)
             case Some(text) => Ok(Forward(text, false)))
          else Ok(Answer(RepeatPrompt, false))
      else if p.requestType == "SessionEndedRequest" then Ok(Forward("goodbye", true))
      else Err(RuntimeError)
  }

  /** The routing table for English requests. */
  lemma RoutingTable(locale: string, user: string, intent: Option<string>, slot: Option<string>)
    requires StartsWith(locale, "en")
    ensures Route(Some(Payload(locale, user, "CanFulfillIntentRequest", intent, slot))) == Err(NotImplementedError)
    ensures Route(Some(Payload(locale, user, "LaunchRequest", intent, slot))) == Ok(Forward("hi", false))
    ensures Route(Some(Payload(locale, user, "SessionEndedRequest", intent, slot))) == Ok(Forward("goodbye", true))
    ensures Route(Some(Payload(locale, user, "IntentRequest", Some("AMAZON.StopIntent"), slot)))
            == Ok(Forward("goodbye", true))
    ensures Route(Some(Payload(locale, user, "IntentRequest", Some("AMAZON.HelpIntent"), slot)))
            == Ok(Forward("help", false))
    ensures Route(Some(Payload(locale, user, "IntentRequest", Some("AMAZON.CancelIntent"), slot)))
            == Ok(Forward("cancel", false))
    ensures slot.Some? ==> Route(Some(Payload(locale, user, "IntentRequest", Some("ReturnUserInput"), slot)))
                           == Ok(Forward(slot.value, false))
  {
  }

  /** Every request type other than the four Alexa sends is refused, and an
      intent the skill does not know is asked again. */
  lemma UnknownRequests(locale: string, user: string, kind: string, intent: string, slot: Option<string>)
    requires StartsWith(locale, "en")
    ensures kind !in {"CanFulfillIntentRequest", "LaunchRequest", "IntentRequest", "SessionEndedRequest"} ==>
              Route(Some(Payload(locale, user, kind, Some(intent), slot))) == Err(RuntimeError)
    ensures intent !in {"AMAZON.StopIntent", "AMAZON.HelpIntent", "AMAZON.CancelIntent", "ReturnUserInput"} ==>
              Route(Some(Payload(locale, user, "IntentRequest", Some(intent), slot))) == Ok(Answer(RepeatPrompt, false))
  {
  }

  /** `[m["text"] for m in out.messages]`: a bot message without text raises
      KeyError. */
  function Texts(messages: seq<Option<string>>): (r: Result<seq<string>>)
    ensures r.Ok? <==> forall k :: 0 <= k < |messages| ==> messages[k].Some?
    ensures r.Err? ==> r.error == KeyError
    ensures r.Ok? ==> |r.value| == |messages| && forall k :: 0 <= k < |messages| ==> r.value[k] == messages[k].value
    decreases |messages|
  {
    if |messages| == 0 then Ok([])
    else
      assert forall k :: 1 <= k < |messages| ==> messages[k] == messages[1..][k - 1];
      match messages[0]
      case None => Err(KeyError)
      case Some(t) =>
        var rest :- Texts(messages[1..]);
        Ok([t] + rest)
  }

  /** `_handle_request`: the reply text and whether the session ends.
      `assistant` stands for sending the user message (text, sender and
      locale) and collecting the bot messages. */
  function HandleRequest(payload: Option<Payload>, assistant: (string, string, string) -> seq<Option<string>>)
    : (r: Result<(string, bool)>)
    ensures Route(payload).Err? ==> r == Err(Route(payload).error)
    ensures Route(payload).Ok? && Route(payload).value.Answer? ==>
              r == Ok((Route(payload).value.message, Route(payload).value.endSession))
    ensures Route(payload).Ok? && Route(payload).value.Forward? ==>
              var sent := assistant(Route(payload).value.text, payload.value.userId, payload.value.locale);
              && (r.Ok? <==> Texts(sent).Ok?)
              && (r.Ok? ==> r.value.1 == Route(payload).value.endSession)
              && (r.Ok? && |sent| == 0 ==> r.value.0 == NoResponse)
              && (r.Ok? && |sent| > 0 ==> r.value.0 == JoinWith("\n", Texts(sent).value))
  {
    var routed :- Route(payload);
    match routed
    case Answer(message, end) => Ok((message, end))
    case Forward(text, end) =>
      var p := payload.value;
      var responses :- Texts(assistant(text, p.userId, p.locale));
      if |responses| > 0 then Ok((JoinWith("\n", responses), end)) else Ok((NoResponse, end))
  }

  /** Each bot message becomes one line of the reply: when no message
      contains a line break, splitting the reply gives back the messages. */
  lemma RepliesAreLines(payload: Option<Payload>, assistant: (string, string, string) -> seq<Option<string>>)
    requires Route(payload).Ok? && Route(payload).value.Forward?
    requires var sent := assistant(Route(payload).value.text, payload.value.userId, payload.value.locale);
             && |sent| > 0
             && forall k :: 0 <= k < |sent| ==> sent[k].Some? && '\n' !in sent[k].value
    ensures HandleRequest(payload, assistant).Ok?
    ensures var sent := assistant(Route(payload).value.text, payload.value.userId, payload.value.locale);
            var lines := SplitOn(HandleRequest(payload, assistant).value.0, '\n');
            |lines| == |sent| && forall k :: 0 <= k < |sent| ==> lines[k] == sent[k].value
  {
    var sent := assistant(Route(payload).value.text, payload.value.userId, payload.value.locale);
    var responses := Texts(sent).value;
    assert JoinWith("\n", responses) == JoinWith(['\n'], responses);
    SplitOnJoin(responses, '\n');
  }

  /** `receive`: the handled request rendered as SSML, with the session
      flag. */
  function Receive(payload: Option<Payload>, assistant: (string, string, string) -> seq<Option<string>>)
    : (r: Result<(string, bool)>)
    ensures HandleRequest(payload, assistant).Err? ==> r.Err?
    ensures HandleRequest(payload, assistant).Ok? ==>
              && (r.Ok? <==> Ssml(HandleRequest(payload, assistant).value.0).Ok?)
              && (r.Ok? ==> r.value == (Ssml(HandleRequest(payload, assistant).value.0).value,
                                        HandleRequest(payload, assistant).value.1))
  {
    var (message, end) :- HandleRequest(payload, assistant);
    var ssml :- Ssml(message);
    Ok((ssml, end))
  }

  lemma PromptsArePlain()
    ensures PlainLine(RepeatPrompt) && PlainLine(EnglishOnly)
  {
  }

  /** A request that arrives without a payload is answered by asking again,
      keeping the session open. */
  lemma MissingPayload(assistant: (string, string, string) -> seq<Option<string>>)
    ensures Receive(None, assistant) == Ok((SpeakOpen + "<p><s>" + RepeatPrompt + "</s>" + SpeakClose, false))
  {
    PromptsArePlain();
    PlainReply(RepeatPrompt);
  }

  /** A request in another language is refused in English and ends the
      session, whatever it asks. */
  lemma NotEnglish(p: Payload, assistant: (string, string, string) -> seq<Option<string>>)
    requires !StartsWith(p.locale, "en")
    ensures Receive(Some(p), assistant) == Ok((SpeakOpen + "<p><s>" + EnglishOnly + "</s>" + SpeakClose, true))
  {
    PromptsArePlain();
    PlainReply(EnglishOnly);
  }
}
