/** Choosing a message's text by language, and checking that there is one to choose (src/metadata/message.rs). */
module MessageText {
  import opened Wrappers
  import opened Metadata
  import opened Sequences

  /** The part of a language before the first underscore, if there is one. */
  function LanguageCode(language: string): Option<string> {
    if language == "" then None
    else if language[0] == '_' then Some("")
    else match LanguageCode(language[1..]) case None => None case Some(c) => Some([language[0]] + c)
  }

  lemma {:induction false} LanguageCodeIs(language: string)
    ensures LanguageCode(language).None? <==> '_' !in language
    ensures LanguageCode(language).Some? ==>
              '_' !in LanguageCode(language).value && LanguageCode(language).value + "_" <= language
  {
    if language != "" {
      LanguageCodeIs(language[1..]);
      assert language == [language[0]] + language[1..];
    }
  }

  /** One of the languages names a country and the other is its language code alone. */
  predicate RelatedTo(language: string, other: string) {
    if LanguageCode(language).Some? then LanguageCode(language).value == other
    else LanguageCode(other) == Some(language)
  }

  function FirstExact(content: seq<MessageContent>, language: string): Option<MessageContent> {
    if content == [] then None
    else if FirstExact(Front(content), language).Some? then FirstExact(Front(content), language)
    else if Last(content).language == language then Some(Last(content)) else None
  }

  function FirstRelated(content: seq<MessageContent>, language: string): Option<MessageContent> {
    if content == [] then None
    else if FirstRelated(Front(content), language).Some? then FirstRelated(Front(content), language)
    else if RelatedTo(language, Last(content).language) then Some(Last(content)) else None
  }

  /** If there are several texts in the default language, the last counts. */
  function LastDefault(content: seq<MessageContent>): Option<MessageContent> {
    if content == [] then None
    else if Last(content).language == DEFAULT_LANGUAGE then Some(Last(content))
    else LastDefault(Front(content))
  }

  function Selected(content: seq<MessageContent>, language: string): Option<MessageContent> {
    if content == [] then None
    else if |content| == 1 then Some(content[0])
    else if FirstExact(content, language).Some? then FirstExact(content, language)
    else if FirstRelated(content, language).Some? then FirstRelated(content, language)
    else LastDefault(content)
  }

  method SelectMessageContent(content: seq<MessageContent>, language: string) returns (r: Option<MessageContent>)
    ensures r == Selected(content, language)
  {
    if content == [] {
      return None;
    }
    if |content| == 1 {
      return Some(content[0]);
    }
    var languageCode := LanguageCode(language);
    var matched: Option<MessageContent>, english: Option<MessageContent> := None, None;
    for i := 0 to |content|
      invariant FirstExact(content[..i], language).None?
      invariant matched == FirstRelated(content[..i], language)
      invariant matched.None? ==> english == LastDefault(content[..i])
    {
      PrefixGrows(content, i);
      var mc := content[i];
      if mc.language == language {
        ExactStays(content, language, i + 1);
        return Some(mc);
      } else if matched.None? {
        if languageCode.Some? && languageCode.value == mc.language {
          matched := Some(mc);
        } else if languageCode.None? && LanguageCode(mc.language) == Some(language) {
          matched := Some(mc);
        }
        if mc.language == DEFAULT_LANGUAGE {
          english := Some(mc);
        }
      }
    }
    assert content[..|content|] == content;
    if matched.Some? {
      r := matched;
    } else if english.Some? {
      r := english;
    } else {
      r := None;
    }
  }

  lemma {:induction false} ExactStays(content: seq<MessageContent>, language: string, k: nat)
    requires k <= |content| && FirstExact(content[..k], language).Some?
    ensures FirstExact(content, language) == FirstExact(content[..k], language)
    decreases |content|
  {
    if k == |content| {
      assert content[..k] == content;
    } else {
      assert Front(content)[..k] == content[..k];
      ExactStays(Front(content), language, k);
    }
  }

  /** Several texts must include one in the default language. */
  predicate ValidContents(content: seq<MessageContent>) {
    |content| > 1 ==> exists c :: c in content && c.language == DEFAULT_LANGUAGE
  }

  lemma {:induction false} LastDefaultIs(content: seq<MessageContent>)
    ensures LastDefault(content).None? <==> forall c :: c in content ==> c.language != DEFAULT_LANGUAGE
  {
    if content != [] {
      LastDefaultIs(Front(content));
      assert content == Front(content) + [Last(content)];
    }
  }

  /** A language that no content is in or related to. */
  function UnusedLanguage(content: seq<MessageContent>): (r: string)
    ensures r != "" && forall i :: 0 <= i < |r| ==> r[i] == 'x'
  {
    if content == [] then "x" else UnusedLanguage(Front(content)) + seq(|Last(content).language|, _ => 'x')
  }

  lemma {:induction false} UnusedLanguageIs(content: seq<MessageContent>, language: string)
    requires |language| >= |UnusedLanguage(content)| && '_' !in language
    ensures FirstExact(content, language).None? && FirstRelated(content, language).None?
  {
    if content != [] {
      UnusedLanguageIs(Front(content), language);
      LanguageCodeIs(language);
      LanguageCodeIs(Last(content).language);
    }
  }

  /** The check is exactly what makes sure that a text is found whatever the language. */
  lemma ValidContentsAlwaysSelect(content: seq<MessageContent>)
    ensures ValidContents(content) && content != [] <==> forall language :: Selected(content, language).Some?
  {
    LastDefaultIs(content);
    if |content| > 1 && !ValidContents(content) {
      var language := UnusedLanguage(content);
      UnusedLanguageIs(content, language);
      assert Selected(content, language).None?;
    }
    if content == [] {
      assert Selected(content, "").None?;
    }
  }

  /** One of the languages is the other with an underscore and something more, such as a country, after it. */
  ghost predicate SameLanguage(language: string, other: string) {
    (exists rest :: language == other + "_" + rest && '_' !in other)
    || (exists rest :: other == language + "_" + rest && '_' !in language)
  }

  lemma LanguageCodeAt(language: string, code: string, rest: string)
    requires language == code + "_" + rest && '_' !in code
    ensures LanguageCode(language) == Some(code)
    decreases |code|
  {
    if code != "" {
      assert language[1..] == code[1..] + "_" + rest && language[0] == code[0];
      assert code[0] in code;
      LanguageCodeAt(language[1..], code[1..], rest);
      HeadAndTail(code);
    }
  }

  lemma RelatedIff(language: string, other: string)
    ensures RelatedTo(language, other) <==> SameLanguage(language, other)
  {
    LanguageCodeIs(language);
    LanguageCodeIs(other);
    if RelatedTo(language, other) {
      var longer, code := if LanguageCode(language).Some? then language else other,
                          if LanguageCode(language).Some? then other else language;
      assert longer == code + "_" + longer[|code| + 1..];
    }
    if rest :| language == other + "_" + rest && '_' !in other {
      LanguageCodeAt(language, other, rest);
    }
    if rest :| other == language + "_" + rest && '_' !in language {
      LanguageCodeAt(other, language, rest);
    }
  }

  /** The i-th text is the first in a language. */
  ghost predicate IsFirstIn(content: seq<MessageContent>, i: nat, language: string)
    requires i < |content|
  {
    content[i].language == language && forall j :: 0 <= j < i ==> content[j].language != language
  }

  ghost predicate IsFirstRelated(content: seq<MessageContent>, i: nat, language: string)
    requires i < |content|
  {
    && SameLanguage(language, content[i].language)
    && forall j :: 0 <= j < i ==> !SameLanguage(language, content[j].language)
  }

  ghost predicate IsLastIn(content: seq<MessageContent>, i: nat, language: string)
    requires i < |content|
  {
    content[i].language == language && forall j :: i < j < |content| ==> content[j].language != language
  }

  lemma {:induction false} FirstExactIs(content: seq<MessageContent>, language: string)
    ensures forall i :: 0 <= i < |content| && IsFirstIn(content, i, language) ==>
                          FirstExact(content, language) == Some(content[i])
    ensures FirstExact(content, language).None? <==> forall c :: c in content ==> c.language != language
  {
    if content != [] {
      FirstExactIs(Front(content), language);
      assert content == Front(content) + [Last(content)];
      assert forall i :: 0 <= i < |content| - 1 && IsFirstIn(content, i, language) ==>
                           IsFirstIn(Front(content), i, language);
    }
  }

  lemma {:induction false} FirstRelatedIs(content: seq<MessageContent>, language: string)
    ensures forall i :: 0 <= i < |content| && IsFirstRelated(content, i, language) ==>
                          FirstRelated(content, language) == Some(content[i])
    ensures FirstRelated(content, language).None? <==>
              forall c :: c in content ==> !SameLanguage(language, c.language)
  {
    if content != [] {
      FirstRelatedIs(Front(content), language);
      RelatedIff(language, Last(content).language);
      assert content == Front(content) + [Last(content)];
      assert forall i :: 0 <= i < |content| - 1 && IsFirstRelated(content, i, language) ==>
                           IsFirstRelated(Front(content), i, language);
    }
  }

  lemma {:induction false} LastDefaultAt(content: seq<MessageContent>, i: nat)
    requires i < |content| && IsLastIn(content, i, "en")
    ensures LastDefault(content) == Some(content[i])
  {
    if i < |content| - 1 {
      LastDefaultAt(Front(content), i);
    }
  }

  /** A single text is chosen whatever its language. Of several, the first in the language is, or else the first in a
      related one, or else the last in English. */
  lemma SelectedMeaning(content: seq<MessageContent>, language: string, i: nat)
    requires i < |content|
    ensures |content| == 1 ==> Selected(content, language) == Some(content[0])
    ensures |content| > 1 && IsFirstIn(content, i, language) ==> Selected(content, language) == Some(content[i])
    ensures |content| > 1 && (forall c :: c in content ==> c.language != language) ==>
              IsFirstRelated(content, i, language) ==> Selected(content, language) == Some(content[i])
    ensures |content| > 1 ==>
              (forall c :: c in content ==> c.language != language && !SameLanguage(language, c.language)) ==>
                IsLastIn(content, i, "en") ==> Selected(content, language) == Some(content[i])
  {
    FirstExactIs(content, language);
    FirstRelatedIs(content, language);
    if IsLastIn(content, i, "en") {
      LastDefaultAt(content, i);
    }
  }

  /** Nothing is chosen exactly if there is nothing to choose from. */
  lemma NothingSelectedIff(content: seq<MessageContent>, language: string)
    ensures Selected(content, language).None?
       <==> content == [] || (|content| > 1 && forall c :: c in content ==>
                               c.language != language && !SameLanguage(language, c.language) && c.language != "en")
  {
    FirstExactIs(content, language);
    FirstRelatedIs(content, language);
    LastDefaultIs(content);
  }
}
