/** Locale tags such as "en-GB", as both NLU components read them: the
    language is the text before the first '-'. */
module Locales {
  import opened Strings

  /** `locale.split("-")[0]`. */
  function LanguageOf(locale: string): (r: string)
    ensures '-' !in r
    ensures r <= locale
  {
    var parts := SplitOn(locale, '-');
    JoinSplitOn(locale, '-');
    FirstPartIsPrefix(parts, ['-']);
    parts[0]
  }

  /** The first part of a join is a prefix of it. */
  lemma FirstPartIsPrefix(parts: seq<string>, sep: string)
    requires |parts| >= 1
    ensures parts[0] <= JoinWith(sep, parts)
  {
    if |parts| > 1 {
      assert JoinWith(sep, parts) == parts[0] + (sep + JoinWith(sep, parts[1..]));
    }
  }

  /** A tag made of a language, a '-' and a region splits back into the two. */
  lemma SplitTag(language: string, region: string)
    requires '-' !in language && '-' !in region
    ensures SplitOn(language + "-" + region, '-') == [language, region]
    ensures LanguageOf(language + "-" + region) == language
  {
    assert JoinWith(['-'], [language, region]) == language + "-" + region;
    SplitOnJoin([language, region], '-');
  }
}
