/** `utils/_grammar.py`. The `inflect` engine is an oracle passed in:
    `singularNoun(w)` is None when `w` is already singular (inflect's `False`)
    and its singular otherwise; `pluralNoun(w)` is inflect's plural. */
module Grammar {
  import opened Wrappers
  import opened Strings

  /** The suffix `int_to_ordinal` picks; Python's `%` is non-negative here, as
      Dafny's is for a positive divisor. */
  function OrdinalSuffix(n: int): (s: string)
    ensures s in ["st", "nd", "rd", "th"]
    ensures 11 <= n % 100 <= 13 ==> s == "th"
    ensures !(11 <= n % 100 <= 13) ==>
              s == (if n % 10 == 1 then "st" else if n % 10 == 2 then "nd"
                    else if n % 10 == 3 then "rd" else "th")
  {
    if 11 <= n % 100 <= 13 then "th"
    else ["th", "st", "nd", "rd", "th"][if n % 10 < 4 then n % 10 else 4]
  }

  function IntToOrdinal(n: int): (r: string)
    ensures |r| >= 3
    ensures r[..|r| - 2] == IntToString(n)
    ensures r[|r| - 2..] == OrdinalSuffix(n)
  {
    IntToString(n) + OrdinalSuffix(n)
  }

  /** The suffix depends only on the last two digits. */
  lemma OrdinalSuffixPeriodic(n: int, k: int)
    ensures OrdinalSuffix(n + 100 * k) == OrdinalSuffix(n)
  {
    assert (n + 100 * k) % 100 == n % 100;
    assert (n + 100 * k) % 10 == n % 10 by {
      assert n + 100 * k == n + 10 * (10 * k);
    }
  }

  /** For a non-negative number the digits in front of the suffix read back as it. */
  lemma OrdinalReadsBack(n: nat)
    ensures var r := IntToOrdinal(n);
            && (forall k :: 0 <= k < |r| - 2 ==> IsDigit(r[k]))
            && DigitsValue(r[..|r| - 2]) == n
  {
    NatToStringRoundTrip(n);
  }

  /** Python's modulo makes negative numbers take the suffix of their
      complement: -1 becomes "-1th" and -9 becomes "-9st". */
  lemma NegativeOrdinals()
    ensures IntToOrdinal(-1) == "-1th"
    ensures IntToOrdinal(-9) == "-9st"
    ensures IntToOrdinal(112) == "112th"
    ensures IntToOrdinal(22) == "22nd"
  {
    OrdinalOfMinusOne();
    OrdinalOfMinusNine();
    OrdinalOf112();
    OrdinalOf22();
  }

  lemma OrdinalOfMinusOne()
    ensures IntToOrdinal(-1) == "-1th"
  {
    assert IntToString(-1) == "-" + [DigitChar(1)];
    assert OrdinalSuffix(-1) == "th";
  }

  lemma OrdinalOfMinusNine()
    ensures IntToOrdinal(-9) == "-9st"
  {
    assert IntToString(-9) == "-" + [DigitChar(9)];
    assert OrdinalSuffix(-9) == "st";
  }

  lemma OrdinalOf112()
    ensures IntToOrdinal(112) == "112th"
  {
    assert NatToString(11) == [DigitChar(1), DigitChar(1)];
    assert IntToString(112) == [DigitChar(1), DigitChar(1), DigitChar(2)];
    assert OrdinalSuffix(112) == "th";
  }

  lemma OrdinalOf22()
    ensures IntToOrdinal(22) == "22nd"
  {
    assert IntToString(22) == [DigitChar(2), DigitChar(2)];
    assert OrdinalSuffix(22) == "nd";
  }

  function Singularize(word: string, singularNoun: string -> Option<string>): (r: string)
    ensures singularNoun(word).None? ==> r == word
    ensures singularNoun(word).Some? ==> r == singularNoun(word).value
  {
    match singularNoun(word)
    case None => word
    case Some(s) => s
  }

  function Pluralize(word: string, singularNoun: string -> Option<string>,
                     pluralNoun: string -> string): (r: string)
    ensures singularNoun(word).Some? ==> r == word
    ensures singularNoun(word).None? ==> r == pluralNoun(word)
  {
    match singularNoun(word)
    case None => pluralNoun(word)
    case Some(_) => word
  }

  function AgreeWithNumber(word: string, count: int, singularNoun: string -> Option<string>,
                           pluralNoun: string -> string): (r: Result<string>)
    ensures r.Err? <==> count < 1
    ensures r.Err? ==> r.error == ValueError
    ensures count == 1 ==> r == Ok(Singularize(word, singularNoun))
    ensures count > 1 ==> r == Ok(Pluralize(word, singularNoun, pluralNoun))
  {
    if count < 1 then Err(ValueError)
    else if count == 1 then Ok(Singularize(word, singularNoun))
    else Ok(Pluralize(word, singularNoun, pluralNoun))
  }

  /** A word the oracle calls singular comes back unchanged from `Singularize`
      and a word it calls plural comes back unchanged from `Pluralize`; between
      them, the two functions change a word only towards the other number. */
  lemma NumberIsIdempotent(word: string, singularNoun: string -> Option<string>,
                           pluralNoun: string -> string)
    ensures Singularize(word, singularNoun) == word || Pluralize(word, singularNoun, pluralNoun) == word
    ensures AgreeWithNumber(word, 1, singularNoun, pluralNoun).value == word <==>
              (singularNoun(word).None? || singularNoun(word).value == word)
  {
  }

  /** `to_second_singular_person`: "I", then "am", then "my" replaced
      everywhere, inside words too. No capital "I" is left, and a sentence
      with none of the three is returned as it is. */
  function ToSecondSingularPerson(sentence: string): (r: string)
    ensures 'I' !in r
    ensures !Contains(sentence, "I") && !Contains(sentence, "am") && !Contains(sentence, "my") ==> r == sentence
  {
    var s1 := ReplaceAll(sentence, "I", "you");
    var s2 := ReplaceAll(s1, "am", "are");
    ReplaceAllRemovesChar(sentence, 'I', "you");
    ReplaceAllKeepsAbsent(s1, "am", "are", 'I');
    ReplaceAllKeepsAbsent(s2, "my", "your", 'I');
    if !Contains(sentence, "I") && !Contains(sentence, "am") && !Contains(sentence, "my") then
      ReplaceAllAbsent(sentence, "I", "you");
      ReplaceAllAbsent(sentence, "am", "are");
      ReplaceAllAbsent(sentence, "my", "your");
      ReplaceAll(s2, "my", "your")
    else
      ReplaceAll(s2, "my", "your")
  }

  /** No capital "I" survives the rewrite, wherever it stood. */
  lemma NoFirstPersonPronounLeft(sentence: string)
    ensures 'I' !in ToSecondSingularPerson(sentence)
  {
  }

  /** The replacements reach inside words: "Imam" becomes "youmare". */
  lemma ReplacesInsideWords()
    ensures ToSecondSingularPerson("Imam") == "youmare"
  {
    ReplaceIInImam();
    ReplaceAmInYoumam();
    ReplaceMyInYoumare();
  }

  lemma ReplaceIInImam()
    ensures ReplaceAll("Imam", "I", "you") == "youmam"
  {
    assert ReplaceAll("", "I", "you") == "";
    assert ReplaceAll("m", "I", "you") == "m";
    assert ReplaceAll("am", "I", "you") == "am";
    assert ReplaceAll("mam", "I", "you") == "mam";
  }

  lemma ReplaceAmInYoumam()
    ensures ReplaceAll("youmam", "am", "are") == "youmare"
  {
    assert ReplaceAll("", "am", "are") == "";
    assert ReplaceAll("am", "am", "are") == "are";
    assert ReplaceAll("mam", "am", "are") == "mare";
    assert ReplaceAll("umam", "am", "are") == "umare";
    assert ReplaceAll("oumam", "am", "are") == "oumare";
  }

  lemma ReplaceMyInYoumare()
    ensures ReplaceAll("youmare", "my", "your") == "youmare"
  {
    assert ReplaceAll("e", "my", "your") == "e";
    assert ReplaceAll("re", "my", "your") == "re";
    assert ReplaceAll("are", "my", "your") == "are";
    assert "mare"[..2] != "my" by { assert "mare"[1] == 'a'; }
    assert "mare"[1..] == "are";
    assert ReplaceAll("mare", "my", "your") == "mare";
    assert ReplaceAll("umare", "my", "your") == "umare";
    assert ReplaceAll("oumare", "my", "your") == "oumare";
  }
}
