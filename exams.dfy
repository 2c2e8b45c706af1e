/**
 * The typed exam document: language texts, option sets, questions, exams and
 * users, with the derived views the screens read off an exam (the question key
 * used by the answers map, the primary and secondary language, the owner and
 * the public flag). `ExamOf` is the `as Exam` cast applied to a document the
 * schema accepted.
 */
module Exams {
  import opened Common
  import opened Json
  import Strings
  import ExamSchema

  /** One `langCode: text` member of a language map. */
  datatype Entry = Entry(lang: string, text: string)

  /** `string | LangSpecificText`; a map keeps its members in key order. */
  datatype LangText = Plain(s: string) | Langs(entries: seq<Entry>)

  datatype QuestionId = StrId(s: string) | NumId(n: int)

  datatype QuestionType = MultipleChoice | OpenEnded

  /** One `langCode: string[]` member of a language-keyed option map. */
  datatype LangList = LangList(lang: string, values: seq<string>)

  /** `OptionValue[] | { [langCode: string]: string[] }` */
  datatype OptionSet = OptionList(values: seq<LangText>) | OptionsByLang(lists: seq<LangList>)

  datatype Question = Question(
    id: QuestionId,
    qtype: QuestionType,
    domain: Nullable<string>,
    question: LangText,
    options: Nullable<OptionSet>,
    answerKey: Nullable<LangText>,
    explanation: Nullable<LangText>,
    extra: seq<Member>)

  datatype Language = Language(primary: string, secondary: Nullable<string>)

  datatype Exam = Exam(
    id: Nullable<string>,
    title: string,
    language: Nullable<Language>,
    includeAnswerKey: Nullable<bool>,
    questions: seq<Question>,
    extra: seq<Member>)

  datatype User = User(id: string, username: string)

  // ---------------------------------------------------------------------------
  // Language maps
  // ---------------------------------------------------------------------------

  predicate HasLang(es: seq<Entry>, lang: string)
  {
    exists i :: 0 <= i < |es| && es[i].lang == lang
  }

  /** `map[lang]` for a key that is present: the text of its (first) entry. */
  function TextFor(es: seq<Entry>, lang: string): (r: string)
    requires HasLang(es, lang)
    ensures Entry(lang, r) in es
  {
    if es[0].lang == lang then es[0].text else TextFor(es[1..], lang)
  }

  /** `map[lang]` as a JavaScript truthiness test: present and not the empty string. */
  predicate TruthyFor(es: seq<Entry>, lang: string)
  {
    HasLang(es, lang) && TextFor(es, lang) != ""
  }

  /** Truthiness of a text value: only the empty plain string is falsy. */
  predicate TruthyText(t: LangText)
  {
    t.Langs? || t.s != ""
  }

  // ---------------------------------------------------------------------------
  // What the screens derive from an exam
  // ---------------------------------------------------------------------------

  /** `q.id.toString()`, the key of the answers map. */
  function Key(id: QuestionId): string
  {
    match id
    case StrId(s) => s
    case NumId(n) => Strings.IntToString(n)
  }

  /** `exam.language?.primary || 'en'` */
  function PrimaryLang(e: Exam): (r: string)
    ensures r != ""
    ensures e.language.Given? && e.language.value.primary != "" ==> r == e.language.value.primary
    ensures !(e.language.Given? && e.language.value.primary != "") ==> r == "en"
  {
    if e.language.Given? && e.language.value.primary != "" then e.language.value.primary else "en"
  }

  /** `exam.language?.secondary` */
  function SecondaryLang(e: Exam): Nullable<string>
  {
    if e.language.Given? then e.language.value.secondary else Undefined
  }

  /** `!!secondaryLang && primaryLang !== secondaryLang` */
  predicate IsMultilingual(e: Exam)
  {
    TruthyString(SecondaryLang(e)) && PrimaryLang(e) != SecondaryLang(e).value
  }

  /** `exam.includeAnswerKey` as a truthiness test. */
  predicate ScoringEnabled(e: Exam)
  {
    e.includeAnswerKey == Given(true)
  }

  /** `exam.userId === userId`; the upload never sets `userId`, so it comes from the document. */
  predicate OwnedBy(e: Exam, userId: string)
  {
    Get(e.extra, "userId") == Some(JStr(userId))
  }

  /** `exam.isPublic` as a truthiness test; absent is falsy. */
  predicate IsPublic(e: Exam)
  {
    Has(e.extra, "isPublic") && Truthy(Get(e.extra, "isPublic").value)
  }

  /** `exam.id === id` */
  predicate HasId(e: Exam, id: string)
  {
    e.id == Given(id)
  }

  /** A text value as the JSON it came from. */
  function TextJson(t: LangText): Json
  {
    match t
    case Plain(s) => JStr(s)
    case Langs(es) => JObj(seq(|es|, i requires 0 <= i < |es| => Member(es[i].lang, JStr(es[i].text))))
  }

  // ---------------------------------------------------------------------------
  // The `as Exam` cast
  // ---------------------------------------------------------------------------

  /** The members whose keys the typed record does not name. */
  function Unknown(ms: seq<Member>, known: set<string>): (r: seq<Member>)
    ensures forall m :: m in r <==> m in ms && m.key !in known
  {
    if |ms| == 0 then []
    else if ms[0].key in known then Unknown(ms[1..], known)
    else [ms[0]] + Unknown(ms[1..], known)
  }

  function EntriesOf(ms: seq<Member>): (es: seq<Entry>)
    ensures |es| == |ms|
  {
    seq(|ms|, i requires 0 <= i < |ms| => Entry(ms[i].key, if ms[i].value.JStr? then ms[i].value.s else ""))
  }

  function TextOf(j: Json): LangText
  {
    if j.JObj? then Langs(EntriesOf(j.members)) else if j.JStr? then Plain(j.s) else Plain("")
  }

  function NullableTextOf(v: Option<Json>): Nullable<LangText>
  {
    if v.None? then Undefined else if v.value.JNull? then Null else Given(TextOf(v.value))
  }

  function StringsOf(j: Json): seq<string>
  {
    if j.JArr? then seq(|j.items|, i requires 0 <= i < |j.items| => if j.items[i].JStr? then j.items[i].s else "")
    else []
  }

  function OptionsOf(v: Option<Json>): Nullable<OptionSet>
  {
    if v.None? then Undefined
    else match v.value
      case JArr(items) => Given(OptionList(seq(|items|, i requires 0 <= i < |items| => TextOf(items[i]))))
      case JObj(ms) => Given(OptionsByLang(seq(|ms|, i requires 0 <= i < |ms| => LangList(ms[i].key, StringsOf(ms[i].value)))))
      case _ => Null
  }

  function QuestionOf(j: Json): Question
  {
    var ms := if j.JObj? then j.members else [];
    var id := Get(ms, "id");
    var domain := Get(ms, "domain");
    Question(
      if id.Some? && id.value.JNum? then NumId(id.value.n)
      else StrId(if id.Some? && id.value.JStr? then id.value.s else ""),
      if Get(ms, "type") == Some(JStr("multiple-choice")) then MultipleChoice else OpenEnded,
      if domain.None? then Undefined else if domain.value.JStr? then Given(domain.value.s) else Null,
      if Get(ms, "question").Some? then TextOf(Get(ms, "question").value) else Plain(""),
      OptionsOf(Get(ms, "options")),
      NullableTextOf(Get(ms, "answerKey")),
      NullableTextOf(Get(ms, "explanation")),
      Unknown(ms, ExamSchema.QuestionKeys))
  }

  function LanguageOf(v: Option<Json>): Nullable<Language>
  {
    if v.None? then Undefined
    else if !v.value.JObj? then Null
    else
      var ms := v.value.members;
      var p := Get(ms, "primary");
      var s := Get(ms, "secondary");
      Given(Language(
        if p.Some? && p.value.JStr? then p.value.s else "",
        if s.None? then Undefined else if s.value.JStr? then Given(s.value.s) else Null))
  }

  function ExamOf(doc: Json): Exam
  {
    var ms := if doc.JObj? then doc.members else [];
    var id := Get(ms, "id");
    var title := Get(ms, "title");
    var inc := Get(ms, "includeAnswerKey");
    var qs := Get(ms, "questions");
    var items := if qs.Some? && qs.value.JArr? then qs.value.items else [];
    Exam(
      if id.None? then Undefined else if id.value.JStr? then Given(id.value.s) else Null,
      if title.Some? && title.value.JStr? then title.value.s else "",
      LanguageOf(Get(ms, "language")),
      if inc.None? then Undefined else if inc.value.JBool? then Given(inc.value.b) else Null,
      seq(|items|, i requires 0 <= i < |items| => QuestionOf(items[i])),
      Unknown(ms, ExamSchema.ExamKeys))
  }

  /** What the cast preserves of a document the schema accepted. */
  lemma ExamOfAccepted(doc: Json)
    requires ExamSchema.ValidExam(doc)
    ensures var e := ExamOf(doc);
            && Get(doc.members, "title") == Some(JStr(e.title))
            && e.title != ""
            && Get(doc.members, "questions") == Some(JArr(Get(doc.members, "questions").value.items))
            && |e.questions| == |Get(doc.members, "questions").value.items| >= 1
            && forall i :: 0 <= i < |e.questions| ==> e.questions[i] == QuestionOf(Get(doc.members, "questions").value.items[i])
  {
  }

  /**
   * On an accepted document the cast's language, when present, has a
   * non-empty primary, which is then the primary language the screens use,
   * and a secondary that is absent, `null` or non-empty.
   */
  lemma AcceptedLanguage(doc: Json)
    requires ExamSchema.ValidExam(doc)
    ensures var e := ExamOf(doc);
            && (e.language.Given? ==> e.language.value.primary != "" && PrimaryLang(e) == e.language.value.primary)
            && (e.language.Given? && e.language.value.secondary.Given? ==> e.language.value.secondary.value != "")
            && (e.language == Undefined <==> !Has(doc.members, "language"))
  {
  }

  /** An accepted question's options are, after the cast, absent, `null`, or a non-empty set. */
  lemma QuestionOfAcceptedOptions(j: Json)
    requires ExamSchema.Question(j)
    ensures var o := QuestionOf(j).options;
            && (o == Undefined <==> !Has(j.members, "options"))
            && (o == Null <==> Get(j.members, "options") == Some(JNull))
            && (o.Given? && o.value.OptionList? ==> |o.value.values| >= 1)
            && (o.Given? && o.value.OptionsByLang? ==> |o.value.lists| >= 1)
    ensures QuestionOf(j).qtype == MultipleChoice <==> Get(j.members, "type") == Some(JStr("multiple-choice"))
  {
    if Has(j.members, "options") {
      ExamSchema.OptionsAccepts(Get(j.members, "options").value);
    }
  }
}
