/** The spell checker of `components/_spell_checker.py`: a message featuriser
    that sends each message's text to the Bing spell-check service and
    applies the corrections it returns. The service is a parameter that maps
    a text and a market to the tokens it flags. */
module SpellChecker {
  import opened Wrappers
  import opened Strings
  import opened Locales

  /** The markets the spell-check service accepts. */
  const SupportedLocales: seq<string> := [
    "da-DK", "de-AT", "de-CH", "de-DE", "en-AU", "en-CA", "en-GB", "en-ID",
    "en-IN", "en-MY", "en-NZ", "en-PH", "en-US", "en-ZA", "es-AR", "es-CL",
    "es-ES", "es-MX", "es-US", "fi-FI", "fr-BE", "fr-CA", "fr-CH", "fr-FR",
    "it-IT", "ja-JP", "ko-KR", "nl-BE", "nl-NL", "no-NO", "pl-PL", "pt-BR",
    "ru-RU", "sv-SE", "tr-TR", "zh-CN", "zh-HK", "zh-TW"]

  /** The configured component. */
  datatype Checker = Checker(apiKey: string, locale: string)

  /** The constructor: the default market must be supported. */
  function NewChecker(apiKey: string, defaultLocale: string): (r: Result<Checker>)
    ensures r.Ok? <==> defaultLocale in SupportedLocales
    ensures r.Err? ==> r.error == ValueError
    ensures r.Ok? ==> r.value == Checker(apiKey, defaultLocale)
  {
    if defaultLocale !in SupportedLocales then Err(ValueError) else Ok(Checker(apiKey, defaultLocale))
  }

  /** `create`: the key comes from the environment, where it may be missing;
      a missing key is reported before the market is checked. */
  function Create(apiKey: Option<string>, defaultLocale: string): (r: Result<Checker>)
    ensures apiKey.None? ==> r == Err(RuntimeError)
    ensures apiKey.Some? ==> r == NewChecker(apiKey.value, defaultLocale)
  {
    match apiKey
    case None => Err(RuntimeError)
    case Some(key) => NewChecker(key, defaultLocale)
  }

  /** The market used for one message: the message's own locale when its
      metadata has one, which must then be supported, else the default. */
  function ChooseLocale(checker: Checker, locale: Option<string>): (r: Result<string>)
    ensures r.Ok? <==> locale.None? || locale.value in SupportedLocales
    ensures r.Err? ==> r.error == ValueError
    ensures r.Ok? ==> r.value == locale.GetOr(checker.locale)
  {
    match locale
    case None => Ok(checker.locale)
    case Some(l) => if l !in SupportedLocales then Err(ValueError) else Ok(l)
  }

  /** A constructed checker only ever sends supported markets. */
  lemma ChosenLocaleIsSupported(defaultLocale: string, apiKey: string, locale: Option<string>)
    requires NewChecker(apiKey, defaultLocale).Ok?
    ensures var c := NewChecker(apiKey, defaultLocale).value;
            ChooseLocale(c, locale).Ok? ==> ChooseLocale(c, locale).value in SupportedLocales
  {
  }

  /** A token the service flags, with its suggestions, best first. */
  datatype Flagged = Flagged(token: string, suggestions: seq<string>)

  predicate HasSuggestion(f: Flagged) {
    |f.suggestions| > 0
  }

  /** The correction loop of `_check_spelling`: each flagged token, in order,
      has its first occurrence in the running text replaced by its best
      suggestion. A token without suggestions raises IndexError. */
  function ApplyCorrections(text: string, flagged: seq<Flagged>): (r: Result<string>)
    ensures r.Ok? <==> forall k :: 0 <= k < |flagged| ==> HasSuggestion(flagged[k])
    ensures r.Err? ==> r.error == IndexError
    decreases |flagged|
  {
    if |flagged| == 0 then Ok(text)
    else if !HasSuggestion(flagged[0]) then Err(IndexError)
    else
      assert forall k :: 1 <= k < |flagged| ==> flagged[k] == flagged[1..][k - 1];
      ApplyCorrections(ReplaceFirst(text, flagged[0].token, flagged[0].suggestions[0]), flagged[1..])
  }

  /** Without flagged tokens the text is returned unchanged. */
  lemma NoFlagsIsIdentity(text: string)
    ensures ApplyCorrections(text, []) == Ok(text)
  {
  }

  /** One flagged token replaces exactly its first occurrence, and a token
      not in the text changes nothing. */
  lemma SingleCorrection(text: string, f: Flagged)
    requires HasSuggestion(f)
    ensures Find(text, f.token).None? ==> ApplyCorrections(text, [f]) == Ok(text)
    ensures Find(text, f.token).Some? ==>
              var k := Find(text, f.token).value;
              && text[k..k + |f.token|] == f.token
              && ApplyCorrections(text, [f]) == Ok(text[..k] + f.suggestions[0] + text[k + |f.token|..])
  {
    assert [f][1..] == [];
  }

  /** Corrections compose: applying two batches one after the other is
      applying their concatenation. */
  lemma {:induction false} CorrectionsCompose(text: string, a: seq<Flagged>, b: seq<Flagged>)
    requires ApplyCorrections(text, a).Ok?
    ensures ApplyCorrections(text, a + b) == ApplyCorrections(ApplyCorrections(text, a).value, b)
    decreases |a|
  {
    if |a| == 0 {
      assert a + b == b;
    } else {
      assert (a + b)[0] == a[0];
      assert (a + b)[1..] == a[1..] + b;
      CorrectionsCompose(ReplaceFirst(text, a[0].token, a[0].suggestions[0]), a[1..], b);
    }
  }

  /** `process` for one message: the chosen market must be valid even when
      there is no text; a message without text is left as it is. `service`
      stands for the spell-check request. */
  function ProcessMessage(checker: Checker, locale: Option<string>, text: Option<string>,
                          service: (string, string) -> seq<Flagged>): (r: Result<Option<string>>)
    ensures ChooseLocale(checker, locale).Err? ==> r == Err(ValueError)
    ensures ChooseLocale(checker, locale).Ok? && text.None? ==> r == Ok(None)
    ensures ChooseLocale(checker, locale).Ok? && text.Some? ==>
              var flagged := service(text.value, ChooseLocale(checker, locale).value);
              && (r.Ok? <==> forall k :: 0 <= k < |flagged| ==> HasSuggestion(flagged[k]))
              && (r.Ok? ==> r.value == Some(ApplyCorrections(text.value, flagged).value))
  {
    var market :- ChooseLocale(checker, locale);
    match text
    case None => Ok(None)
    case Some(t) =>
      var corrected :- ApplyCorrections(t, service(t, market));
      Ok(Some(corrected))
  }

  /** A message as the component sees it: the metadata locale and the text. */
  datatype Message = Message(locale: Option<string>, text: Option<string>)

  /** `process` over a batch: messages are handled in order and the first
      failure aborts the batch. */
  function Process(checker: Checker, messages: seq<Message>, service: (string, string) -> seq<Flagged>)
    : (r: Result<seq<Message>>)
    ensures r.Ok? <==> forall k :: 0 <= k < |messages| ==>
                         ProcessMessage(checker, messages[k].locale, messages[k].text, service).Ok?
    ensures r.Ok? ==> |r.value| == |messages|
                      && forall k :: 0 <= k < |messages| ==>
                           r.value[k] == messages[k].(text := ProcessMessage(checker, messages[k].locale,
                                                                             messages[k].text, service).value)
    decreases |messages|
  {
    if |messages| == 0 then Ok([])
    else
      var m := messages[0];
      var text :- ProcessMessage(checker, m.locale, m.text, service);
      assert forall k :: 1 <= k < |messages| ==> messages[k] == messages[1..][k - 1];
      var rest :- Process(checker, messages[1..], service);
      Ok([m.(text := text)] + rest)
  }

  /** `supported_languages`: the languages of the supported markets. */
  function Languages(): (r: set<string>)
    ensures forall l :: l in r <==> exists k :: 0 <= k < |SupportedLocales| && LanguageOf(SupportedLocales[k]) == l
  {
    set k | 0 <= k < |SupportedLocales| :: LanguageOf(SupportedLocales[k])
  }

  /** Every supported market is a two-letter language, '-', and a region. */
  lemma LanguageOfMarket(k: nat)
    requires k < |SupportedLocales|
    ensures LanguageOf(SupportedLocales[k]) == SupportedLocales[k][..2]
  {
    var s := SupportedLocales[k];
    assert |s| == 5 && s[2] == '-' && s[0] != '-' && s[1] != '-' && s[3] != '-' && s[4] != '-';
    assert s == s[..2] + "-" + s[3..];
    SplitTag(s[..2], s[3..]);
  }

  /** The languages are the two-letter prefixes of the markets, English
      among them. */
  lemma LanguagesArePrefixes()
    ensures Languages() == set k | 0 <= k < |SupportedLocales| :: SupportedLocales[k][..2]
    ensures "en" in Languages()
  {
    forall k | 0 <= k < |SupportedLocales| ensures LanguageOf(SupportedLocales[k]) == SupportedLocales[k][..2] {
      LanguageOfMarket(k);
    }
    assert SupportedLocales[6][..2] == "en";
  }

  /** The market of a processed message is in one of the supported
      languages. */
  lemma ChosenLanguageIsSupported(checker: Checker, locale: Option<string>)
    requires checker.locale in SupportedLocales
    requires ChooseLocale(checker, locale).Ok?
    ensures LanguageOf(ChooseLocale(checker, locale).value) in Languages()
  {
  }
}
