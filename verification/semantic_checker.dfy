/** The semantic checker of `components/_semantic_checker.py`: an entity
    extractor that looks an entity's value up in the Cambridge dictionary and
    marks the entity correct when one of the definitions is close enough to
    the template of its type. The dictionary lookup and the sentence-embedding
    similarity are parameters. */
module SemanticChecker {
  import opened Wrappers
  import opened Strings
  import opened Locales
  import opened RasaUtils

  /** The locales whose dictionary has a regional edition. */
  const SupportedLocales: seq<string> := ["en-GB", "en-US"]

  /** `{loc.split("-")[0] for loc in _LOCALES}`. */
  function Languages(): (r: set<string>)
    ensures forall l :: l in r <==> exists k :: 0 <= k < |SupportedLocales| && LanguageOf(SupportedLocales[k]) == l
  {
    set k | 0 <= k < |SupportedLocales| :: LanguageOf(SupportedLocales[k])
  }

  /** `supported_languages`: only English. */
  lemma OnlyEnglish()
    ensures Languages() == {"en"}
  {
    SplitTag("en", "GB");
    SplitTag("en", "US");
    assert SupportedLocales[0] == "en" + "-" + "GB";
    assert SupportedLocales[1] == "en" + "-" + "US";
  }

  /** `_extract_country`: the dictionary's country segment for a locale. A
      regional tag must be supported and gives its region in lower case, with
      "gb" spelled "uk"; a bare tag must be a supported language and gives no
      segment. */
  function ExtractCountry(locale: string): (r: Result<Option<string>>)
    ensures r.Ok? <==> (locale in SupportedLocales || ('-' !in locale && locale in Languages()))
    ensures r.Err? ==> r.error == ValueError
    ensures r.Ok? ==> (r.value.Some? <==> '-' in locale)
  {
    if '-' in locale then
      if locale !in SupportedLocales then Err(ValueError)
      else
        var parts := SplitOn(locale, '-');
        assert |parts| >= 2 by { RegionalParts(locale); }
        var country := ToLower(parts[1]);
        Ok(Some(if country == "gb" then "uk" else country))
    else if locale !in Languages() then Err(ValueError)
    else Ok(None)
  }

  lemma RegionalParts(locale: string)
    requires locale in SupportedLocales
    ensures |SplitOn(locale, '-')| == 2
  {
    if locale == "en-GB" {
      SplitTag("en", "GB");
      assert locale == "en" + "-" + "GB";
    } else {
      SplitTag("en", "US");
      assert locale == "en" + "-" + "US";
    }
  }

  /** The countries of the supported tags: British English uses the "uk"
      edition, American English the "us" one, and bare English the default;
      anything else is refused. */
  lemma Countries()
    ensures ExtractCountry("en-GB") == Ok(Some("uk"))
    ensures ExtractCountry("en-US") == Ok(Some("us"))
    ensures ExtractCountry("en") == Ok(None)
    ensures ExtractCountry("it-IT") == Err(ValueError)
    ensures ExtractCountry("it") == Err(ValueError)
  {
    BritishEnglish();
    AmericanEnglish();
    BareTags();
  }

  lemma BritishEnglish()
    ensures ExtractCountry("en-GB") == Ok(Some("uk"))
  {
    SplitTag("en", "GB");
    assert "en-GB" == "en" + "-" + "GB";
    assert '-' in "en-GB" by { assert "en-GB"[2] == '-'; }
    assert ToLower("GB") == "gb";
  }

  lemma AmericanEnglish()
    ensures ExtractCountry("en-US") == Ok(Some("us"))
  {
    SplitTag("en", "US");
    assert "en-US" == "en" + "-" + "US";
    assert '-' in "en-US" by { assert "en-US"[2] == '-'; }
    assert ToLower("US") == "us";
  }

  lemma BareTags()
    ensures ExtractCountry("en") == Ok(None)
    ensures ExtractCountry("it-IT") == Err(ValueError)
    ensures ExtractCountry("it") == Err(ValueError)
  {
    OnlyEnglish();
    assert '-' in "it-IT" by { assert "it-IT"[2] == '-'; }
  }

  /** An entity type and the template its values are compared against. */
  datatype EntityConfig = EntityConfig(entityType: string, template: string)

  /** The configured component: the default country and the template of each
      checked entity type. */
  datatype Checker = Checker(country: Option<string>, templates: map<string, string>, minSimilarity: real)

  predicate DistinctTypes(entities: seq<EntityConfig>) {
    forall a, b :: 0 <= a < b < |entities| ==> entities[a].entityType != entities[b].entityType
  }

  /** `table` maps exactly the configured types, each to its template. */
  predicate TableOf(table: map<string, string>, entities: seq<EntityConfig>) {
    && (forall t :: t in table ==> exists k :: 0 <= k < |entities| && entities[k].entityType == t)
    && (forall k :: 0 <= k < |entities| ==> entities[k].entityType in table
                                            && table[entities[k].entityType] == entities[k].template)
  }

  /** The loop of the constructor that fills the template table, refusing a
      type configured twice. */
  function Templates(entities: seq<EntityConfig>): (r: Result<map<string, string>>)
    ensures r.Ok? <==> DistinctTypes(entities)
    ensures r.Err? ==> r.error == ValueError
    ensures r.Ok? ==> TableOf(r.value, entities)
    decreases |entities|
  {
    if |entities| == 0 then Ok(map[])
    else
      var init := entities[..|entities| - 1];
      var last := entities[|entities| - 1];
      DistinctSnoc(entities);
      match Templates(init)
      case Err(e) => Err(e)
      case Ok(table) =>
        if last.entityType in table then
          InTable(table, init, last.entityType);
          Err(ValueError)
        else
          TableSnoc(table, entities);
          Ok(table[last.entityType := last.template])
  }

  lemma DistinctSnoc(entities: seq<EntityConfig>)
    requires |entities| > 0
    ensures var init := entities[..|entities| - 1];
            DistinctTypes(entities)
            <==> DistinctTypes(init)
                 && forall k :: 0 <= k < |init| ==> init[k].entityType != entities[|entities| - 1].entityType
  {
    var n := |entities|;
    var init := entities[..n - 1];
    assert forall k :: 0 <= k < n - 1 ==> init[k] == entities[k];
  }

  lemma InTable(table: map<string, string>, entities: seq<EntityConfig>, t: string)
    requires TableOf(table, entities) && t in table
    ensures exists k :: 0 <= k < |entities| && entities[k].entityType == t
  {
  }

  lemma TableSnoc(table: map<string, string>, entities: seq<EntityConfig>)
    requires |entities| > 0
    requires TableOf(table, entities[..|entities| - 1])
    requires entities[|entities| - 1].entityType !in table
    ensures var last := entities[|entities| - 1];
            TableOf(table[last.entityType := last.template], entities)
  {
    var n := |entities|;
    var init := entities[..n - 1];
    var last := entities[n - 1];
    var r := table[last.entityType := last.template];
    assert forall k :: 0 <= k < n - 1 ==> init[k] == entities[k];
    forall t | t in r ensures exists k :: 0 <= k < n && entities[k].entityType == t {
      if t != last.entityType {
        var k :| 0 <= k < |init| && init[k].entityType == t;
        assert entities[k].entityType == t;
      }
    }
    forall k | 0 <= k < n ensures entities[k].entityType in r && r[entities[k].entityType] == entities[k].template {
      if k < n - 1 {
        assert entities[k] == init[k];
      }
    }
  }

  /** The constructor: the default locale must be supported and the entity
      types distinct. The embedding model is not part of this model. */
  function NewChecker(defaultLocale: string, minSimilarity: real, entities: seq<EntityConfig>): (r: Result<Checker>)
    ensures r.Ok? <==> ExtractCountry(defaultLocale).Ok? && DistinctTypes(entities)
    ensures r.Err? ==> r.error == ValueError
    ensures r.Ok? ==> r.value.country == ExtractCountry(defaultLocale).value
                      && r.value.templates == Templates(entities).value
  {
    var country :- ExtractCountry(defaultLocale);
    var templates :- Templates(entities);
    Ok(Checker(country, templates, minSimilarity))
  }

  /** `_check_meaning`: whether the best cosine similarity between the
      template and a definition exceeds the threshold; without definitions,
      never. */
  function CheckMeaning(template: string, definitions: seq<string>, similarity: (string, string) -> real,
                        minSimilarity: real): (r: bool)
    ensures r <==> exists k :: 0 <= k < |definitions| && similarity(template, definitions[k]) > minSimilarity
    decreases |definitions|
  {
    if |definitions| == 0 then false
    else
      var rest := CheckMeaning(template, definitions[1..], similarity, minSimilarity);
      assert forall k :: 1 <= k < |definitions| ==> definitions[k] == definitions[1..][k - 1];
      similarity(template, definitions[0]) > minSimilarity || rest
  }

  /** A word the dictionary does not know is never correct. */
  lemma UnknownWordIsIncorrect(template: string, similarity: (string, string) -> real, minSimilarity: real)
    ensures !CheckMeaning(template, [], similarity, minSimilarity)
  {
  }

  /** `word.replace(" ", "-")`, character by character. */
  function Hyphenate(word: string): (r: string)
    ensures |r| == |word|
    ensures forall k :: 0 <= k < |word| ==> r[k] == (if word[k] == ' ' then '-' else word[k])
    ensures ' ' !in r
  {
    if |word| == 0 then "" else [if word[0] == ' ' then '-' else word[0]] + Hyphenate(word[1..])
  }

  /** Replacing every space by a hyphen is the character-wise substitution. */
  lemma {:induction false} ReplaceSpacesIsHyphenate(word: string)
    ensures ReplaceAll(word, " ", "-") == Hyphenate(word)
    decreases |word|
  {
    if |word| > 0 {
      ReplaceSpacesIsHyphenate(word[1..]);
      if word[..1] == " " {
        assert word[0] == ' ';
      } else {
        assert word[0] != ' ';
      }
    }
  }

  const DictionaryBase: string := "https://dictionary.cambridge.org/"
  const DictionaryPath: string := "dictionary/english/"

  /** The address `_get_definitions` fetches. */
  function DefinitionUrl(word: string, country: Option<string>): (r: string)
    ensures country.None? ==> r == DictionaryBase + DictionaryPath + Hyphenate(word)
    ensures country.Some? ==> r == DictionaryBase + country.value + "/" + DictionaryPath + Hyphenate(word)
  {
    var hyphenated := ReplaceAll(word, " ", "-");
    ReplaceSpacesIsHyphenate(word);
    if country.Some? then DictionaryBase + country.value + "/" + DictionaryPath + hyphenated
    else DictionaryBase + DictionaryPath + hyphenated
  }

  /** `_update_entities`: every entity of a checked type gets its verdict;
      the others pass through. `definitions` stands for the dictionary
      lookup of a value in a country's edition. */
  function UpdateEntities(checker: Checker, entities: seq<Entity>, country: Option<string>,
                          definitions: (string, Option<string>) -> seq<string>,
                          similarity: (string, string) -> real): (r: seq<Entity>)
    ensures |r| == |entities|
    ensures forall k :: 0 <= k < |entities| ==>
              r[k] == if entities[k].entityType in checker.templates then
                        entities[k].(correct := CheckMeaning(checker.templates[entities[k].entityType],
                                                             definitions(entities[k].value, country),
                                                             similarity, checker.minSimilarity))
                      else entities[k]
    decreases |entities|
  {
    if |entities| == 0 then []
    else
      var e := entities[0];
      var e' := if e.entityType in checker.templates then
                  e.(correct := CheckMeaning(checker.templates[e.entityType], definitions(e.value, country),
                                             similarity, checker.minSimilarity))
                else e;
      [e'] + UpdateEntities(checker, entities[1..], country, definitions, similarity)
  }

  /** `process` for one message. `metadata` is None when the message
      carries no metadata, which `.get` fails on, and otherwise the locale it
      holds; a non-empty locale chooses the dictionary edition, and the
      default chooses it otherwise. */
  function Process(checker: Checker, metadata: Option<Option<string>>, entities: seq<Entity>,
                   definitions: (string, Option<string>) -> seq<string>,
                   similarity: (string, string) -> real): (r: Result<seq<Entity>>)
    ensures metadata.None? ==> r == Err(AttributeError)
    ensures metadata.Some? && Truthy(metadata.value) ==> (r.Ok? <==> ExtractCountry(metadata.value.value).Ok?)
    ensures metadata.Some? && !Truthy(metadata.value) ==> r.Ok?
    ensures r.Err? && metadata.Some? ==> r.error == ValueError
    ensures r.Ok? ==> && metadata.Some?
                      && r.value == UpdateEntities(checker, entities,
                                                   if Truthy(metadata.value) then ExtractCountry(metadata.value.value).value
                                                   else checker.country,
                                                   definitions, similarity)
  {
    var locale :- if metadata.Some? then Ok(metadata.value) else Err(AttributeError);
    var country :- if Truthy(locale) then ExtractCountry(locale.value) else Ok(checker.country);
    Ok(UpdateEntities(checker, entities, country, definitions, similarity))
  }

  /** Entities of unchecked types, and the entity list's order and length,
      are untouched by processing; only the correctness flag can change. */
  lemma ProcessOnlyFlags(checker: Checker, metadata: Option<Option<string>>, entities: seq<Entity>,
                         definitions: (string, Option<string>) -> seq<string>,
                         similarity: (string, string) -> real)
    requires Process(checker, metadata, entities, definitions, similarity).Ok?
    ensures var r := Process(checker, metadata, entities, definitions, similarity).value;
            && |r| == |entities|
            && forall k :: 0 <= k < |r| ==> r[k].(correct := entities[k].correct) == entities[k]
  {
  }
}
