/**
 * The three `getLangSpecificText` resolvers. Each turns a text value (a plain
 * string or a language map) into the string to show for a preferred language
 * with an optional fallback language; they differ in how a language is
 * looked up and in the sentinel they return.
 *
 * - `ResolveByKey` (exam-simulator-app results screen) tests `lang in map`,
 *   so a present key wins even when its text is `""`; `undefined` gives
 *   "N/A", `null` or an empty map "Text not available".
 * - `ResolveTruthy` (src results screen) tests `map[lang]` for truthiness, so
 *   an empty text falls through; every miss gives "N/A".
 * - `ResolveForSession` (src exam-taking screen) tests truthiness too and only
 *   ever sees a text value; a miss gives "Text not available".
 *
 * Every resolver falls back to the text of the map's FIRST key.
 */
module LangTextResolvers {
  import opened Common
  import opened Exams

  const NotAvailable := "N/A"
  const TextNotAvailable := "Text not available"

  function ResolveByKey(t: Nullable<LangText>, lang: string, fallback: Nullable<string>): (r: string)
    ensures t.Given? && t.value.Plain? ==> r == t.value.s
    ensures t.Given? && t.value.Langs? && t.value.entries != [] ==> exists e :: e in t.value.entries && e.text == r
    ensures t == Undefined ==> r == NotAvailable
    ensures t == Null || t == Given(Langs([])) ==> r == TextNotAvailable
  {
    match t
    case Undefined => NotAvailable
    case Null => TextNotAvailable
    case Given(Plain(s)) => s
    case Given(Langs(es)) =>
      if HasLang(es, lang) then TextFor(es, lang)
      else if TruthyString(fallback) && HasLang(es, fallback.value) then TextFor(es, fallback.value)
      else if |es| > 0 then es[0].text
      else TextNotAvailable
  }

  function ResolveTruthy(t: Nullable<LangText>, lang: string, fallback: Nullable<string>): (r: string)
    ensures t.Given? && t.value.Plain? ==> r == t.value.s
    ensures t.Given? && t.value.Langs? && t.value.entries != [] ==> exists e :: e in t.value.entries && e.text == r
    ensures !t.Given? || t == Given(Langs([])) ==> r == NotAvailable
  {
    match t
    case Undefined => NotAvailable
    case Null => NotAvailable
    case Given(Plain(s)) => s
    case Given(Langs(es)) =>
      if TruthyFor(es, lang) then TextFor(es, lang)
      else if TruthyString(fallback) && TruthyFor(es, fallback.value) then TextFor(es, fallback.value)
      else if |es| > 0 then es[0].text
      else NotAvailable
  }

  function ResolveForSession(t: LangText, lang: string, fallback: Nullable<string>): (r: string)
    ensures t.Plain? ==> r == t.s
    ensures t.Langs? && t.entries != [] ==> exists e :: e in t.entries && e.text == r
    ensures t == Langs([]) ==> r == TextNotAvailable
  {
    match t
    case Plain(s) => s
    case Langs(es) =>
      if TruthyFor(es, lang) then TextFor(es, lang)
      else if TruthyString(fallback) && TruthyFor(es, fallback.value) then TextFor(es, fallback.value)
      else if |es| > 0 then es[0].text
      else TextNotAvailable
  }

  /** The preferred language wins whenever the lookup of each variant finds it. */
  lemma PreferredLanguageWins(es: seq<Entry>, lang: string, fallback: Nullable<string>)
    ensures HasLang(es, lang) ==> ResolveByKey(Given(Langs(es)), lang, fallback) == TextFor(es, lang)
    ensures TruthyFor(es, lang) ==>
              && ResolveTruthy(Given(Langs(es)), lang, fallback) == TextFor(es, lang)
              && ResolveForSession(Langs(es), lang, fallback) == TextFor(es, lang)
  {
  }

  /**
   * With the preferred language unusable and the fallback language usable,
   * every variant shows the fallback's text, whatever the first key is.
   */
  lemma FallbackLanguageUsed(es: seq<Entry>, lang: string, fallback: Nullable<string>)
    requires TruthyString(fallback)
    ensures !HasLang(es, lang) && HasLang(es, fallback.value) ==>
              ResolveByKey(Given(Langs(es)), lang, fallback) == TextFor(es, fallback.value)
    ensures !TruthyFor(es, lang) && TruthyFor(es, fallback.value) ==>
              && ResolveTruthy(Given(Langs(es)), lang, fallback) == TextFor(es, fallback.value)
              && ResolveForSession(Langs(es), lang, fallback) == TextFor(es, fallback.value)
  {
  }

  /** With neither language usable, every variant shows the first key's text. */
  lemma FirstKeyFallback(es: seq<Entry>, lang: string, fallback: Nullable<string>)
    requires es != []
    ensures !HasLang(es, lang) && (!TruthyString(fallback) || !HasLang(es, fallback.value)) ==>
              ResolveByKey(Given(Langs(es)), lang, fallback) == es[0].text
    ensures !TruthyFor(es, lang) && (!TruthyString(fallback) || !TruthyFor(es, fallback.value)) ==>
              && ResolveTruthy(Given(Langs(es)), lang, fallback) == es[0].text
              && ResolveForSession(Langs(es), lang, fallback) == es[0].text
  {
  }

  /** Naming the preferred language again as the fallback changes nothing, in any variant. */
  lemma FallbackToSameLanguage(t: Nullable<LangText>, lang: string)
    ensures ResolveByKey(t, lang, Given(lang)) == ResolveByKey(t, lang, Undefined)
    ensures ResolveTruthy(t, lang, Given(lang)) == ResolveTruthy(t, lang, Undefined)
    ensures t.Given? ==> ResolveForSession(t.value, lang, Given(lang)) == ResolveForSession(t.value, lang, Undefined)
  {
  }

  /** A present entry whose text is non-empty is found by every variant. */
  lemma NonEmptyEntriesFound(es: seq<Entry>, lang: string)
    requires forall i :: 0 <= i < |es| ==> es[i].text != ""
    ensures HasLang(es, lang) <==> TruthyFor(es, lang)
  {
    if HasLang(es, lang) {
      var r := TextFor(es, lang);
      var i :| 0 <= i < |es| && es[i] == Entry(lang, r);
    }
  }

  /**
   * The three variants agree on a plain string and on every non-empty map
   * whose texts are all non-empty; they part only on empty texts, empty maps
   * and missing values.
   */
  lemma {:induction false} VariantsAgreeOnNonEmptyTexts(t: LangText, lang: string, fallback: Nullable<string>)
    requires t.Langs? ==> t.entries != [] && forall i :: 0 <= i < |t.entries| ==> t.entries[i].text != ""
    ensures ResolveByKey(Given(t), lang, fallback) == ResolveTruthy(Given(t), lang, fallback)
    ensures ResolveTruthy(Given(t), lang, fallback) == ResolveForSession(t, lang, fallback)
  {
    if t.Langs? {
      NonEmptyEntriesFound(t.entries, lang);
      if fallback.Given? {
        NonEmptyEntriesFound(t.entries, fallback.value);
      }
    }
  }

  /** An empty text for the preferred language separates the `in` test from the truthiness test. */
  lemma EmptyTextSeparatesVariants()
    ensures var m := Langs([Entry("en", ""), Entry("es", "Hola")]);
            && ResolveByKey(Given(m), "en", Given("es")) == ""
            && ResolveTruthy(Given(m), "en", Given("es")) == "Hola"
            && ResolveForSession(m, "en", Given("es")) == "Hola"
  {
    var es := [Entry("en", ""), Entry("es", "Hola")];
    assert es[0].lang == "en" && es[1].lang == "es";
    assert HasLang(es, "en") && TextFor(es, "en") == "";
    assert es[1..] == [Entry("es", "Hola")];
    assert HasLang(es, "es") && TextFor(es, "es") == "Hola";
  }

  /**
   * The map `{en: "A", es: "B"}`: a present language, a present fallback that
   * is not the first key, and the first key.
   */
  lemma TwoLanguageMapExample()
    ensures var m := Langs([Entry("en", "A"), Entry("es", "B")]);
            && ResolveByKey(Given(m), "es", Undefined) == "B"
            && ResolveByKey(Given(m), "fr", Given("es")) == "B"
            && ResolveByKey(Given(m), "fr", Undefined) == "A"
            && ResolveTruthy(Given(m), "es", Undefined) == "B"
            && ResolveTruthy(Given(m), "fr", Given("es")) == "B"
            && ResolveTruthy(Given(m), "fr", Undefined) == "A"
  {
    var es := [Entry("en", "A"), Entry("es", "B")];
    assert es[0].lang == "en" && es[1].lang == "es";
    assert es[1..] == [Entry("es", "B")];
    assert HasLang(es, "es") && TextFor(es, "es") == "B";
    assert HasLang(es, "en") && TextFor(es, "en") == "A";
    assert !HasLang(es, "fr");
  }
}
