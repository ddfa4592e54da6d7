/**
 * The translation page (frontend/src/pages/AITranslation.jsx): the checks made before a
 * request, the request text built from the language names and the quoted input, the
 * cleaning of the reply and the message shown when the request fails.
 *
 * The translator is a parameter: the translated text, or the message of the error the
 * request failed with.
 */
module Translation {
  import opened Wrappers
  import Text

  // ---------------------------------------------------------------------------
  // Languages

  datatype Language = Language(code: string, name: string)

  const Languages: seq<Language> := [
    Language("en", "English"), Language("es", "Spanish"), Language("fr", "French"),
    Language("de", "German"), Language("it", "Italian"), Language("zh", "Chinese (Simplified)"),
    Language("ja", "Japanese"), Language("as", "Assamese"), Language("hi", "Hindi")]

  /** `langs.find((lang) => lang.code === code)`: the first entry with that code. */
  function Find(langs: seq<Language>, code: string): (r: Option<Language>)
    ensures r.None? <==> forall i :: 0 <= i < |langs| ==> langs[i].code != code
    ensures r.Some? ==> exists i :: 0 <= i < |langs| && langs[i] == r.value && r.value.code == code
  {
    if langs == [] then None
    else if langs[0].code == code then Some(langs[0])
    else
      var r := Find(langs[1..], code);
      assert forall i :: 1 <= i < |langs| ==> langs[i] == langs[1..][i - 1];
      r
  }

  /** `find(...)?.name || code`: the listed name, or the code itself for an unknown code. */
  function LanguageName(code: string): (r: string)
    ensures (forall i :: 0 <= i < |Languages| ==> Languages[i].code != code) ==> r == code
  {
    match Find(Languages, code)
    case Some(lang) => if lang.name != "" then lang.name else code
    case None => code
  }

  predicate UniqueCodes(langs: seq<Language>) {
    forall i, j :: 0 <= i < j < |langs| ==> langs[i].code != langs[j].code
  }

  /** No code is listed twice, and every listed language has a name. */
  lemma CodesUnique()
    ensures UniqueCodes(Languages)
    ensures forall i :: 0 <= i < |Languages| ==> Languages[i].name != ""
  {
  }

  /** In a list without repeated codes, looking up a listed code finds that very entry. */
  lemma {:induction false} FindListed(langs: seq<Language>, i: nat)
    requires UniqueCodes(langs) && i < |langs|
    ensures Find(langs, langs[i].code) == Some(langs[i])
  {
    if i > 0 {
      assert langs[0].code != langs[i].code;
      var rest := langs[1..];
      assert UniqueCodes(rest) by {
        forall a, b | 0 <= a < b < |rest| ensures rest[a].code != rest[b].code {
          assert rest[a] == langs[a + 1] && rest[b] == langs[b + 1];
        }
      }
      assert rest[i - 1] == langs[i];
      FindListed(rest, i - 1);
    }
  }

  /** Every listed code is shown by its own listed name. */
  lemma LanguageNameKnown(i: nat)
    requires i < |Languages|
    ensures LanguageName(Languages[i].code) == Languages[i].name
  {
    CodesUnique();
    FindListed(Languages, i);
  }

  // ---------------------------------------------------------------------------
  // Quoting the input

  /** `text.replace(/"/g, '\\"')`: every double quote gets a backslash in front. */
  function EscapeQuotes(s: string): string {
    Text.Replace(s, '"', "\\\"")
  }

  /** The decoder: a backslash followed by a quote is a quote. */
  function UnescapeQuotes(s: string): string
    decreases |s|
  {
    if s == [] then []
    else if "\\\"" <= s then "\"" + UnescapeQuotes(s[2..])
    else [s[0]] + UnescapeQuotes(s[1..])
  }

  lemma {:induction false} EscapeQuotesNoLeadingQuote(s: string)
    ensures EscapeQuotes(s) == [] || EscapeQuotes(s)[0] != '"'
  {
  }

  /** Quoting loses nothing: decoding gives the input back, so distinct inputs stay distinct. */
  lemma {:induction false} EscapeQuotesRoundTrip(s: string)
    ensures UnescapeQuotes(EscapeQuotes(s)) == s
  {
    if s != [] {
      var rest := EscapeQuotes(s[1..]);
      EscapeQuotesRoundTrip(s[1..]);
      if s[0] == '"' {
        var e := "\\\"" + rest;
        assert EscapeQuotes(s) == e;
        assert "\\\"" <= e && e[2..] == rest;
      } else {
        var e := [s[0]] + rest;
        assert EscapeQuotes(s) == e;
        EscapeQuotesNoLeadingQuote(s[1..]);
        assert |e| < 2 || e[1] != '"' by {
          if |e| >= 2 { assert e[1] == rest[0]; }
        }
        assert e[1..] == rest;
      }
      assert s == [s[0]] + s[1..];
    }
  }

  /** Text without double quotes goes into the request as it is; text with some never shows a bare one. */
  lemma EscapeQuotesPlain(s: string)
    ensures '"' !in s ==> EscapeQuotes(s) == s
    ensures forall i :: 0 <= i < |EscapeQuotes(s)| && EscapeQuotes(s)[i] == '"' ==> i > 0 && EscapeQuotes(s)[i - 1] == '\\'
  {
    EscapedQuotesPreceded(s);
  }

  lemma {:induction false} EscapedQuotesPreceded(s: string)
    ensures forall i :: 0 <= i < |EscapeQuotes(s)| && EscapeQuotes(s)[i] == '"' ==> i > 0 && EscapeQuotes(s)[i - 1] == '\\'
  {
    if s != [] {
      EscapedQuotesPreceded(s[1..]);
      var head := if s[0] == '"' then "\\\"" else [s[0]];
      var rest := EscapeQuotes(s[1..]);
      assert EscapeQuotes(s) == head + rest;
      EscapeQuotesNoLeadingQuote(s[1..]);
      forall i | 0 <= i < |head + rest| && (head + rest)[i] == '"'
        ensures i > 0 && (head + rest)[i - 1] == '\\'
      {
        if i >= |head| {
          assert (head + rest)[i] == rest[i - |head|];
          if i - |head| > 0 {
            assert (head + rest)[i - 1] == rest[i - |head| - 1];
          }
        }
      }
    }
  }

  /** The request text: both language names and the quoted input. */
  function Prompt(sourceLang: string, targetLang: string, text: string): string {
    PromptHead + LanguageName(sourceLang) + PromptTo + LanguageName(targetLang)
    + PromptText + EscapeQuotes(text) + PromptTail
  }

  /**
   * For listed languages the request reads: the head, both language names, the
   * instructions, the quoted input and the tail; and cutting away that frame and decoding
   * what is left gives the input back.
   */
  lemma PromptRecoversText(i: nat, j: nat, text: string)
    requires i < |Languages| && j < |Languages|
    ensures var frame := PromptHead + Languages[i].name + PromptTo + Languages[j].name + PromptText;
      var p := Prompt(Languages[i].code, Languages[j].code, text);
      && p == frame + EscapeQuotes(text) + PromptTail
      && |frame| + |PromptTail| <= |p|
      && UnescapeQuotes(p[|frame|..|p| - |PromptTail|]) == text
  {
    LanguageNameKnown(i);
    LanguageNameKnown(j);
    var frame := PromptHead + Languages[i].name + PromptTo + Languages[j].name + PromptText;
    var e := EscapeQuotes(text);
    var p := Prompt(Languages[i].code, Languages[j].code, text);
    assert p == frame + e + PromptTail;
    assert p[|frame|..|p| - |PromptTail|] == e;
    EscapeQuotesRoundTrip(text);
  }

  const PromptHead: string := "You are an expert translator. Translate the following text from "
  const PromptTo: string := " to "
  const PromptText: string := ". Provide the translation in a JSON object with the key \"translatedText\". Text to translate: \""
  const PromptTail: string := "\". Example output: {\"translatedText\": \"Translated result\"}"

  // ---------------------------------------------------------------------------
  // Cleaning the reply

  const JsonFence: string := "```json\n"
  const CloseFence: string := "\n```"

  /** `s.replace(/```json\n|\n```/g, '')`: left to right, the opening fence tried first at each position. */
  function StripFences(s: string): (r: string)
    ensures |r| <= |s|
    decreases |s|
  {
    if s == [] then []
    else if JsonFence <= s then StripFences(s[|JsonFence|..])
    else if CloseFence <= s then StripFences(s[|CloseFence|..])
    else [s[0]] + StripFences(s[1..])
  }

  /** `.trim()` after the fences are gone. */
  function CleanReply(s: string): string {
    Text.Trim(StripFences(s))
  }

  /** A reply without backticks has no fence to strip. */
  lemma {:induction false} StripFencesPlain(s: string)
    requires '`' !in s
    ensures StripFences(s) == s
  {
    if s != [] {
      assert s[0] in s;
      if |s| > 1 { assert s[1] in s; }
      assert !(JsonFence <= s) && !(CloseFence <= s);
      assert forall x :: x in s[1..] ==> x in s;
      StripFencesPlain(s[1..]);
      assert s == [s[0]] + s[1..];
    }
  }

  lemma {:induction false} StripClosingFence(x: string)
    requires '`' !in x
    ensures StripFences(x + CloseFence) == x
  {
    var s := x + CloseFence;
    if x == [] {
      assert s == CloseFence && s[|CloseFence|..] == [];
    } else {
      assert s[0] == x[0] && x[0] in x;
      assert s[1] != '`' by {
        if |x| > 1 { assert s[1] == x[1] && x[1] in x; } else { assert s[1] == '\n'; }
      }
      assert !(JsonFence <= s) && !(CloseFence <= s);
      assert s[1..] == x[1..] + CloseFence;
      assert forall c :: c in x[1..] ==> c in x;
      StripClosingFence(x[1..]);
      assert x == [x[0]] + x[1..];
    }
  }

  /** A JSON reply wrapped in a fenced block comes out as the block's content. */
  lemma StripFencedBlock(x: string)
    requires '`' !in x
    ensures StripFences(JsonFence + x + CloseFence) == x
    ensures CleanReply(JsonFence + x + CloseFence) == Text.Trim(x)
  {
    var s := JsonFence + x + CloseFence;
    assert JsonFence <= s;
    assert s[|JsonFence|..] == x + CloseFence;
    StripClosingFence(x);
  }

  // ---------------------------------------------------------------------------
  // Errors

  const EmptyInputError: string := "Please enter text to translate"
  const SameLanguageError: string := "Source and target languages must be different"
  const CredentialsHint: string := "Invalid API credentials. Please verify your Gemini API key in Google AI Studio."
  const DefaultError: string := "Translation failed. Please try again."

  /** The message shown for a failed request. */
  function ErrorMessage(message: string): (r: string)
    ensures r != ""
  {
    if Text.Contains(message, "authentication") || Text.Contains(message, "401") then CredentialsHint
    else if message != "" then message
    else DefaultError
  }

  /** An HTTP 401 from the translator is reported as a credentials problem, whatever its body says. */
  lemma Unauthorized(body: string)
    ensures ErrorMessage("API request failed with status 401: " + body) == CredentialsHint
  {
    var m := "API request failed with status 401: " + body;
    assert m[31..34] == "401";
    Text.ContainsAt(m, "401", 31);
  }

  /** Messages that mention neither are shown as they are, and only the empty message gets the default. */
  lemma ErrorMessagePassThrough(message: string)
    requires !Text.Contains(message, "authentication") && !Text.Contains(message, "401")
    ensures ErrorMessage(message) == (if message == "" then DefaultError else message)
  {
  }

  // ---------------------------------------------------------------------------
  // The page

  class TranslationPage {
    var inputText: string
    var translatedText: string
    var sourceLang: string
    var targetLang: string
    var isLoading: bool
    var error: string

    constructor ()
      ensures inputText == "" && translatedText == "" && sourceLang == "en" && targetLang == "es"
      ensures !isLoading && error == ""
    {
      inputText, translatedText, sourceLang, targetLang := "", "", "en", "es";
      isLoading, error := false, "";
    }

    /**
     * The checks and the state before the request. Input that trims to nothing is refused
     * first, then equal languages; a refusal sets only the error. Otherwise loading starts,
     * the error and the old translation are cleared, and the request text is returned.
     */
    method StartTranslate() returns (prompt: Option<string>)
      modifies this
      ensures Text.IsBlank(old(inputText)) ==> prompt == None && error == EmptyInputError
      ensures !Text.IsBlank(old(inputText)) && old(sourceLang) == old(targetLang) ==>
        prompt == None && error == SameLanguageError
      ensures prompt.None? ==> translatedText == old(translatedText) && isLoading == old(isLoading)
      ensures !Text.IsBlank(old(inputText)) && old(sourceLang) != old(targetLang) ==>
        && prompt == Some(Prompt(sourceLang, targetLang, inputText))
        && isLoading && error == "" && translatedText == ""
      ensures inputText == old(inputText) && sourceLang == old(sourceLang) && targetLang == old(targetLang)
    {
      // `!inputText.trim()`, which is IsBlank by Text.TrimEmptyIffBlank
      if Text.IsBlank(inputText) {
        error := EmptyInputError;
        return None;
      }
      if sourceLang == targetLang {
        error := SameLanguageError;
        return None;
      }
      prompt := Some(Prompt(sourceLang, targetLang, inputText));
      isLoading, error, translatedText := true, "", "";
    }

    /** The request's outcome: the translation, or the mapped error message; loading ends. */
    method FinishTranslate(outcome: Result<string, string>)
      modifies this
      ensures !isLoading
      ensures outcome.Success? ==> translatedText == outcome.value && error == old(error)
      ensures outcome.Failure? ==> translatedText == old(translatedText) && error == ErrorMessage(outcome.error)
      ensures inputText == old(inputText) && sourceLang == old(sourceLang) && targetLang == old(targetLang)
    {
      if outcome.Success? {
        translatedText := outcome.value;
      } else {
        error := ErrorMessage(outcome.error);
      }
      isLoading := false;
    }

    /**
     * `handleTranslate`: a request is made exactly when the input is not blank and the
     * languages differ; afterwards loading is over and the page shows the translation,
     * or the mapped error with no translation.
     */
    method HandleTranslate(outcome: Result<string, string>) returns (requested: bool)
      modifies this
      ensures requested <==> !Text.IsBlank(old(inputText)) && old(sourceLang) != old(targetLang)
      ensures !requested ==> translatedText == old(translatedText) && isLoading == old(isLoading)
      ensures !requested ==> error == (if Text.IsBlank(old(inputText)) then EmptyInputError else SameLanguageError)
      ensures requested ==> !isLoading
      ensures requested && outcome.Success? ==> translatedText == outcome.value && error == ""
      ensures requested && outcome.Failure? ==> translatedText == "" && error == ErrorMessage(outcome.error)
      ensures inputText == old(inputText) && sourceLang == old(sourceLang) && targetLang == old(targetLang)
    {
      var prompt := StartTranslate();
      requested := prompt.Some?;
      if requested {
        FinishTranslate(outcome);
      }
    }
  }
}
