/**
 * The JSON Schema an uploaded exam document must satisfy, written as
 * predicates over the parsed value tree. Each predicate mirrors one schema
 * literal; the keywords are read as JSON Schema draft-07 defines them, as Ajv
 * applies them: `properties` constrains a member only when it is present,
 * `required` demands presence, `nullable: true` adds `null` to the type,
 * `patternProperties` with `additionalProperties: false` constrains every key,
 * and `oneOf` holds when EXACTLY one of its subschemas holds (section 6.7.3 of
 * JSON Schema Validation, draft-07).
 */
module ExamSchema {
  import opened Common
  import opened Json

  function Count(b: bool): nat
  {
    if b then 1 else 0
  }

  /** `oneOf` with two and with three subschemas. */
  predicate OneOf2(a: bool, b: bool)
  {
    Count(a) + Count(b) == 1
  }

  predicate OneOf3(a: bool, b: bool, c: bool)
  {
    Count(a) + Count(b) + Count(c) == 1
  }

  // ---------------------------------------------------------------------------
  // The language-code pattern ^[a-z]{2,3}(-[A-Z]{2,3})?$
  // ---------------------------------------------------------------------------

  predicate AllLower(s: string)
  {
    forall i :: 0 <= i < |s| ==> 'a' <= s[i] <= 'z'
  }

  predicate AllUpper(s: string)
  {
    forall i :: 0 <= i < |s| ==> 'A' <= s[i] <= 'Z'
  }

  /** Two or three lower-case letters, a hyphen at `n`, then two or three upper-case letters. */
  predicate RegionCodeAt(k: string, n: nat)
  {
    n < |k| && AllLower(k[..n]) && k[n] == '-' && 2 <= |k| - n - 1 <= 3 && AllUpper(k[n + 1..])
  }

  predicate IsLangCode(k: string)
  {
    || (2 <= |k| <= 3 && AllLower(k))
    || RegionCodeAt(k, 2)
    || RegionCodeAt(k, 3)
  }

  // ---------------------------------------------------------------------------
  // Shared subschemas
  // ---------------------------------------------------------------------------

  /** `{ type: "string", minLength: 1 }` */
  predicate NonEmptyString(j: Json)
  {
    j.JStr? && |j.s| >= 1
  }

  /** Second branch of `multilingualTextSchema`: a non-empty object of language code to string. */
  predicate LangMap(j: Json)
  {
    && j.JObj?
    && |j.members| >= 1
    && forall i :: 0 <= i < |j.members| ==> IsLangCode(j.members[i].key) && j.members[i].value.JStr?
  }

  /** `multilingualTextSchema`: `oneOf` a string of any length, or a language map. */
  predicate MultilingualText(j: Json)
  {
    OneOf2(j.JStr?, LangMap(j))
  }

  /** `optionValueSchema`: `oneOf` a non-empty string, or `multilingualTextSchema`. */
  predicate OptionValue(j: Json)
  {
    OneOf2(NonEmptyString(j), MultilingualText(j))
  }

  /** `optionsAsArraySchema` */
  predicate OptionsAsArray(j: Json)
  {
    j.JArr? && |j.items| >= 1 && forall i :: 0 <= i < |j.items| ==> OptionValue(j.items[i])
  }

  /** `{ type: "array", items: { type: "string", minLength: 1 }, minItems: 1 }` */
  predicate NonEmptyStringList(j: Json)
  {
    j.JArr? && |j.items| >= 1 && forall i :: 0 <= i < |j.items| ==> NonEmptyString(j.items[i])
  }

  /** `optionsAsLangMapSchema` */
  predicate OptionsAsLangMap(j: Json)
  {
    && j.JObj?
    && |j.members| >= 1
    && forall i :: 0 <= i < |j.members| ==> IsLangCode(j.members[i].key) && NonEmptyStringList(j.members[i].value)
  }

  // ---------------------------------------------------------------------------
  // Question properties
  // ---------------------------------------------------------------------------

  predicate QuestionId(j: Json)
  {
    OneOf2(NonEmptyString(j), j.JNum?)
  }

  predicate QuestionType(j: Json)
  {
    j == JStr("multiple-choice") || j == JStr("open-ended")
  }

  predicate Domain(j: Json)
  {
    j.JStr? || j.JNull?
  }

  predicate Options(j: Json)
  {
    OneOf3(OptionsAsArray(j), OptionsAsLangMap(j), j.JNull?)
  }

  predicate AnswerKey(j: Json)
  {
    OneOf3(NonEmptyString(j), MultilingualText(j), j.JNull?)
  }

  predicate Explanation(j: Json)
  {
    OneOf2(MultilingualText(j), j.JNull?)
  }

  /** The `items` schema of `questions`; members it does not name are allowed. */
  predicate Question(j: Json)
  {
    && j.JObj?
    && var ms := j.members;
    && Has(ms, "id") && Has(ms, "type") && Has(ms, "question")
    && QuestionId(Get(ms, "id").value)
    && QuestionType(Get(ms, "type").value)
    && MultilingualText(Get(ms, "question").value)
    && (!Has(ms, "domain") || Domain(Get(ms, "domain").value))
    && (!Has(ms, "options") || Options(Get(ms, "options").value))
    && (!Has(ms, "answerKey") || AnswerKey(Get(ms, "answerKey").value))
    && (!Has(ms, "explanation") || Explanation(Get(ms, "explanation").value))
  }

  // ---------------------------------------------------------------------------
  // Exam properties
  // ---------------------------------------------------------------------------

  /** `language`: `null`, or an object with a non-empty `primary` and an optional `secondary`. */
  predicate Language(j: Json)
  {
    || j.JNull?
    || (&& j.JObj?
        && Has(j.members, "primary")
        && NonEmptyString(Get(j.members, "primary").value)
        && (!Has(j.members, "secondary")
            || NonEmptyString(Get(j.members, "secondary").value)
            || Get(j.members, "secondary").value.JNull?))
  }

  predicate Questions(j: Json)
  {
    j.JArr? && |j.items| >= 1 && forall i :: 0 <= i < |j.items| ==> Question(j.items[i])
  }

  /** `examSchema`: the whole document. */
  predicate ValidExam(j: Json)
  {
    && j.JObj?
    && var ms := j.members;
    && Has(ms, "title") && Has(ms, "questions")
    && (!Has(ms, "id") || Get(ms, "id").value.JStr? || Get(ms, "id").value.JNull?)
    && NonEmptyString(Get(ms, "title").value)
    && (!Has(ms, "language") || Language(Get(ms, "language").value))
    && (!Has(ms, "includeAnswerKey")
        || Get(ms, "includeAnswerKey").value.JBool?
        || Get(ms, "includeAnswerKey").value.JNull?)
    && Questions(Get(ms, "questions").value)
  }

  const ExamKeys: set<string> := {"id", "title", "language", "includeAnswerKey", "questions"}
  const QuestionKeys: set<string> := {"id", "type", "domain", "question", "options", "answerKey", "explanation"}

  // ---------------------------------------------------------------------------
  // What the schema accepts, stated without `oneOf`
  // ---------------------------------------------------------------------------

  /** A document is accepted only as an object with a non-empty title and at least one question. */
  lemma AcceptedExamShape(j: Json)
    requires ValidExam(j)
    ensures j.JObj?
    ensures exists t :: Get(j.members, "title") == Some(JStr(t)) && |t| >= 1
    ensures exists qs :: Get(j.members, "questions") == Some(JArr(qs)) && |qs| >= 1
  {
    var t := Get(j.members, "title").value.s;
    assert Get(j.members, "title") == Some(JStr(t));
    var qs := Get(j.members, "questions").value.items;
    assert Get(j.members, "questions") == Some(JArr(qs));
  }

  /** Question and language texts: any string, or a language map. */
  lemma MultilingualTextAccepts(j: Json)
    ensures MultilingualText(j) <==> j.JStr? || LangMap(j)
  {
  }

  /**
   * Under exactly-one `oneOf`, a non-empty plain string satisfies both the
   * `minLength: 1` branch and the string branch of `multilingualTextSchema`,
   * so an option value is accepted only as `""` or as a language map.
   */
  lemma OptionValueAccepts(j: Json)
    ensures OptionValue(j) <==> j == JStr("") || LangMap(j)
  {
    if j.JStr? && j.s != "" {
      assert NonEmptyString(j) && MultilingualText(j);
    }
  }

  /** The same double match rejects every non-empty plain-string `answerKey`. */
  lemma AnswerKeyAccepts(j: Json)
    ensures AnswerKey(j) <==> j == JStr("") || LangMap(j) || j.JNull?
  {
    if j.JStr? && j.s != "" {
      assert NonEmptyString(j) && MultilingualText(j);
    }
  }

  /** `options`: a non-empty array of option values, a non-empty map of non-empty string lists, or `null`. */
  lemma OptionsAccepts(j: Json)
    ensures Options(j) <==> OptionsAsArray(j) || OptionsAsLangMap(j) || j.JNull?
  {
  }

  /** A question id is a non-empty string or a number. */
  lemma QuestionIdAccepts(j: Json)
    ensures QuestionId(j) <==> NonEmptyString(j) || j.JNum?
  {
  }

  /** A multiple-choice question with any non-empty plain-string option makes the whole document invalid. */
  lemma PlainStringOptionRejectsExam(j: Json, i: nat, k: nat)
    requires j.JObj?
    requires Get(j.members, "questions").Some? && Get(j.members, "questions").value.JArr?
    requires i < |Get(j.members, "questions").value.items|
    requires var q := Get(j.members, "questions").value.items[i];
             q.JObj? && Get(q.members, "options").Some? && Get(q.members, "options").value.JArr?
             && k < |Get(q.members, "options").value.items|
             && NonEmptyString(Get(q.members, "options").value.items[k])
    ensures !ValidExam(j)
  {
    var q := Get(j.members, "questions").value.items[i];
    var opts := Get(q.members, "options").value;
    OptionValueAccepts(opts.items[k]);
    assert !OptionsAsArray(opts);
  }

  /** The language-code pattern on sample keys: bare and regional codes pass, other spellings fail. */
  lemma LanguageCodeExamples()
    ensures IsLangCode("en") && IsLangCode("spa") && IsLangCode("pt-BR") && IsLangCode("zh-HAN")
    ensures !IsLangCode("e") && !IsLangCode("engl") && !IsLangCode("EN") && !IsLangCode("en-us") && !IsLangCode("en-B")
  {
    assert "pt-BR"[..2] == "pt" && "pt-BR"[3..] == "BR";
    assert "zh-HAN"[..2] == "zh" && "zh-HAN"[3..] == "HAN";
    assert "en-us"[3..] == "us" && "us"[0] == 'u';
    assert "en-us"[..3][2] == '-';
    assert "EN"[0] == 'E';
  }

  /** A single key outside the pattern, or a non-string value, rejects a language map. */
  lemma LangMapMembers(ms: seq<Member>)
    ensures LangMap(JObj(ms)) <==>
              |ms| >= 1 && forall i :: 0 <= i < |ms| ==> IsLangCode(ms[i].key) && ms[i].value.JStr?
    ensures MultilingualText(JObj(ms)) <==> LangMap(JObj(ms))
  {
  }

  /**
   * What an accepted question's optional texts may be: the question text any
   * string (even empty) or a language map; `domain` any string or `null`;
   * `explanation` a language text or `null`.
   */
  lemma AcceptedQuestionTexts(j: Json)
    requires Question(j)
    ensures var q := Get(j.members, "question").value; q.JStr? || LangMap(q)
    ensures Has(j.members, "domain") ==> Get(j.members, "domain").value.JStr? || Get(j.members, "domain").value.JNull?
    ensures Has(j.members, "explanation") ==>
              var x := Get(j.members, "explanation").value; x.JStr? || LangMap(x) || x.JNull?
  {
  }

  /** Any string is a valid question text, the empty one included. */
  lemma EmptyQuestionTextAccepted(s: string)
    ensures MultilingualText(JStr(s))
  {
  }

  /** A non-empty plain-string `answerKey` on any question makes the whole document invalid. */
  lemma PlainStringAnswerKeyRejectsExam(j: Json, i: nat)
    requires j.JObj?
    requires Get(j.members, "questions").Some? && Get(j.members, "questions").value.JArr?
    requires i < |Get(j.members, "questions").value.items|
    requires var q := Get(j.members, "questions").value.items[i];
             q.JObj? && Get(q.members, "answerKey").Some? && NonEmptyString(Get(q.members, "answerKey").value)
    ensures !ValidExam(j)
  {
    var q := Get(j.members, "questions").value.items[i];
    AnswerKeyAccepts(Get(q.members, "answerKey").value);
    assert !Question(q);
  }

  /** `language`: `null`, or a non-empty `primary` with a `secondary` that is absent, non-empty or `null`. */
  lemma LanguageAccepts(j: Json)
    ensures Language(j) <==>
              || j.JNull?
              || (&& j.JObj?
                  && (exists p :: Get(j.members, "primary") == Some(JStr(p)) && p != "")
                  && (!Has(j.members, "secondary")
                      || (exists s :: Get(j.members, "secondary") == Some(JStr(s)) && s != "")
                      || Get(j.members, "secondary") == Some(JNull)))
  {
    if j.JObj? && Has(j.members, "primary") && NonEmptyString(Get(j.members, "primary").value) {
      assert Get(j.members, "primary") == Some(JStr(Get(j.members, "primary").value.s));
      if Has(j.members, "secondary") && NonEmptyString(Get(j.members, "secondary").value) {
        assert Get(j.members, "secondary") == Some(JStr(Get(j.members, "secondary").value.s));
      }
    }
  }

  /** Members the schema does not name may be added to a question without changing its validity. */
  lemma {:induction false} UnknownQuestionMemberAllowed(ms: seq<Member>, extra: Member)
    requires extra.key !in QuestionKeys
    ensures Question(JObj(ms + [extra])) <==> Question(JObj(ms))
  {
    forall k | k in QuestionKeys
      ensures Get(ms + [extra], k) == Get(ms, k) && (Has(ms + [extra], k) <==> Has(ms, k))
    {
      GetAppend(ms, extra, k);
    }
  }

  /** Members the schema does not name may be added to the exam without changing its validity. */
  lemma {:induction false} UnknownExamMemberAllowed(ms: seq<Member>, extra: Member)
    requires extra.key !in ExamKeys
    ensures ValidExam(JObj(ms + [extra])) <==> ValidExam(JObj(ms))
  {
    forall k | k in ExamKeys
      ensures Get(ms + [extra], k) == Get(ms, k) && (Has(ms + [extra], k) <==> Has(ms, k))
    {
      GetAppend(ms, extra, k);
    }
  }
}
