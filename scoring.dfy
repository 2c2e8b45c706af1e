/**
 * Grading a finished attempt. The two results screens score differently:
 *
 * - exam-simulator-app: a question is scorable when its `answerKey` is neither
 *   `undefined` nor `null`; the score resolves texts with the secondary
 *   language as fallback and `ResolveByKey`, while the per-question status
 *   resolves with the primary language only.
 * - src: a question is scorable when its `answerKey` is truthy; score and
 *   status both resolve with `ResolveTruthy` and the primary language only.
 *
 * The answers map is keyed by `q.id.toString()`.
 */
module Scoring {
  import opened Common
  import opened Exams
  import opened Strings
  import opened LangTextResolvers

  type Answers = map<string, LangText>

  datatype Score = Score(correct: nat, total: nat)

  datatype Status = NotAnswered | NotScored | Correct | Incorrect

  function StatusText(s: Status): string
  {
    match s
    case NotAnswered => "Not Answered"
    case NotScored => "Not Scored"
    case Correct => "Correct"
    case Incorrect => "Incorrect"
  }

  /** `userAnswers[q.id.toString()]` */
  function AnswerFor(answers: Answers, q: Question): (a: Nullable<LangText>)
    ensures a != Null
    ensures a.Given? <==> Key(q.id) in answers
    ensures a.Given? ==> a.value == answers[Key(q.id)]
  {
    if Key(q.id) in answers then Given(answers[Key(q.id)]) else Undefined
  }

  /** `a.toLowerCase() === b.toLowerCase()` */
  predicate SameIgnoringCase(a: string, b: string)
  {
    Lower(a) == Lower(b)
  }

  function Count(b: bool): nat
  {
    if b then 1 else 0
  }

  // ---------------------------------------------------------------------------
  // exam-simulator-app
  // ---------------------------------------------------------------------------

  predicate AppScorable(q: Question)
  {
    q.answerKey.Given?
  }

  /** Whether the score counts `q` correct: answered, both resolutions non-empty, equal ignoring case. */
  predicate AppCountsCorrect(e: Exam, answers: Answers, q: Question)
  {
    var u := ResolveByKey(AnswerFor(answers, q), PrimaryLang(e), SecondaryLang(e));
    var c := ResolveByKey(q.answerKey, PrimaryLang(e), SecondaryLang(e));
    AppScorable(q) && AnswerFor(answers, q).Given? && u != "" && c != "" && SameIgnoringCase(u, c)
  }

  function AppTotal(qs: seq<Question>): nat
  {
    if |qs| == 0 then 0 else AppTotal(qs[..|qs| - 1]) + Count(AppScorable(qs[|qs| - 1]))
  }

  function AppCorrect(e: Exam, answers: Answers, qs: seq<Question>): nat
  {
    if |qs| == 0 then 0 else AppCorrect(e, answers, qs[..|qs| - 1]) + Count(AppCountsCorrect(e, answers, qs[|qs| - 1]))
  }

  /** `scoreData`: `null` when the answer key is off, otherwise correct and scorable counts. */
  function AppScore(e: Exam, answers: Answers): Option<Score>
  {
    if !ScoringEnabled(e) then None else Some(Score(AppCorrect(e, answers, e.questions), AppTotal(e.questions)))
  }

  lemma {:induction false} AppCorrectAtMostTotal(e: Exam, answers: Answers, qs: seq<Question>)
    ensures AppCorrect(e, answers, qs) <= AppTotal(qs) <= |qs|
  {
    if |qs| > 0 {
      AppCorrectAtMostTotal(e, answers, qs[..|qs| - 1]);
    }
  }

  /** The `forEach` over the questions that updates the two counters. */
  method ComputeAppScore(e: Exam, answers: Answers) returns (score: Option<Score>)
    ensures score == AppScore(e, answers)
    ensures score.None? <==> !ScoringEnabled(e)
    ensures score.Some? ==> score.value.correct <= score.value.total <= |e.questions|
  {
    if !ScoringEnabled(e) {
      return None;
    }
    var primary, secondary := PrimaryLang(e), SecondaryLang(e);
    var correct, total := 0, 0;
    for i := 0 to |e.questions|
      invariant correct == AppCorrect(e, answers, e.questions[..i])
      invariant total == AppTotal(e.questions[..i])
    {
      var q := e.questions[i];
      assert e.questions[..i + 1][..i] == e.questions[..i];
      if q.answerKey != Undefined && q.answerKey != Null {
        total := total + 1;
        var userAnswer := AnswerFor(answers, q);
        var correctText := ResolveByKey(q.answerKey, primary, secondary);
        var userText := "";
        if userAnswer != Undefined {
          userText := ResolveByKey(userAnswer, primary, secondary);
        }
        if userText != "" && correctText != "" && Lower(userText) == Lower(correctText) {
          correct := correct + 1;
        }
      }
    }
    assert e.questions[..|e.questions|] == e.questions;
    AppCorrectAtMostTotal(e, answers, e.questions);
    return Some(Score(correct, total));
  }

  /** `getStatusForExport`: resolves with the primary language only. */
  function AppStatus(e: Exam, answers: Answers, q: Question): Status
  {
    var a := AnswerFor(answers, q);
    if a.Undefined? then NotAnswered
    else if !(ScoringEnabled(e) && q.answerKey.Given?) then NotScored
    else if SameIgnoringCase(ResolveByKey(q.answerKey, PrimaryLang(e), Undefined), ResolveByKey(a, PrimaryLang(e), Undefined)) then Correct
    else Incorrect
  }

  /** The status, case by case, without the resolver's internals. */
  lemma AppStatusCases(e: Exam, answers: Answers, q: Question)
    ensures AppStatus(e, answers, q) == NotAnswered <==> Key(q.id) !in answers
    ensures AppStatus(e, answers, q) == NotScored <==> Key(q.id) in answers && !(ScoringEnabled(e) && AppScorable(q))
    ensures AppStatus(e, answers, q) in {Correct, Incorrect} <==> Key(q.id) in answers && ScoringEnabled(e) && AppScorable(q)
  {
  }

  /** Without a distinct secondary language the fallback the score passes is idle. */
  lemma SingleLanguageFallbackIdle(e: Exam, t: Nullable<LangText>)
    requires !IsMultilingual(e)
    ensures ResolveByKey(t, PrimaryLang(e), SecondaryLang(e)) == ResolveByKey(t, PrimaryLang(e), Undefined)
  {
    if TruthyString(SecondaryLang(e)) {
      FallbackToSameLanguage(t, PrimaryLang(e));
    }
  }

  /**
   * For a single-language attempt with scoring on, the score counts a question
   * exactly when its status is Correct and both primary resolutions are non-empty.
   */
  lemma {:induction false} AppScoreAgreesWithStatus(e: Exam, answers: Answers, q: Question)
    requires !IsMultilingual(e)
    requires ScoringEnabled(e)
    ensures AppCountsCorrect(e, answers, q) <==>
              && AppStatus(e, answers, q) == Correct
              && ResolveByKey(AnswerFor(answers, q), PrimaryLang(e), Undefined) != ""
              && ResolveByKey(q.answerKey, PrimaryLang(e), Undefined) != ""
  {
    SingleLanguageFallbackIdle(e, AnswerFor(answers, q));
    SingleLanguageFallbackIdle(e, q.answerKey);
  }

  /**
   * With a distinct secondary language the two disagree: the key `{fr: "X",
   * es: "Y"}` resolves through the fallback to "Y" for the score and to the
   * first key "X" for the status, so the answer "y" is counted correct while
   * its status is Incorrect.
   */
  lemma AppScoreAndStatusCanDisagree()
    ensures var key := Langs([Entry("fr", "X"), Entry("es", "Y")]);
            var q := Question(StrId("q1"), OpenEnded, Undefined, Plain("Capital?"), Undefined, Given(key), Undefined, []);
            var e := Exam(Undefined, "Quiz", Given(Language("en", Given("es"))), Given(true), [q], []);
            var answers := map["q1" := Plain("y")];
            && IsMultilingual(e)
            && AppCountsCorrect(e, answers, q)
            && AppStatus(e, answers, q) == Incorrect
  {
    var es := [Entry("fr", "X"), Entry("es", "Y")];
    assert es[0].lang == "fr" && es[1].lang == "es";
    assert es[1..] == [Entry("es", "Y")];
    assert HasLang(es, "es") && TextFor(es, "es") == "Y";
    assert !HasLang(es, "en");
    assert Lower("y") == "y" && Lower("Y") == "y" && Lower("X") == "x";
  }

  // ---------------------------------------------------------------------------
  // src
  // ---------------------------------------------------------------------------

  /** `if (q.answerKey)`: an `""` key is not scored. */
  predicate SrcScorable(q: Question)
  {
    q.answerKey.Given? && TruthyText(q.answerKey.value)
  }

  predicate SrcCountsCorrect(e: Exam, answers: Answers, q: Question)
  {
    var u := ResolveTruthy(AnswerFor(answers, q), PrimaryLang(e), Undefined);
    var c := ResolveTruthy(q.answerKey, PrimaryLang(e), Undefined);
    SrcScorable(q) && u != NotAvailable && SameIgnoringCase(c, u)
  }

  function SrcTotal(qs: seq<Question>): nat
  {
    if |qs| == 0 then 0 else SrcTotal(qs[..|qs| - 1]) + Count(SrcScorable(qs[|qs| - 1]))
  }

  function SrcCorrect(e: Exam, answers: Answers, qs: seq<Question>): nat
  {
    if |qs| == 0 then 0 else SrcCorrect(e, answers, qs[..|qs| - 1]) + Count(SrcCountsCorrect(e, answers, qs[|qs| - 1]))
  }

  function SrcScore(e: Exam, answers: Answers): Option<Score>
  {
    if !ScoringEnabled(e) then None else Some(Score(SrcCorrect(e, answers, e.questions), SrcTotal(e.questions)))
  }

  lemma {:induction false} SrcCorrectAtMostTotal(e: Exam, answers: Answers, qs: seq<Question>)
    ensures SrcCorrect(e, answers, qs) <= SrcTotal(qs) <= |qs|
  {
    if |qs| > 0 {
      SrcCorrectAtMostTotal(e, answers, qs[..|qs| - 1]);
    }
  }

  method ComputeSrcScore(e: Exam, answers: Answers) returns (score: Option<Score>)
    ensures score == SrcScore(e, answers)
    ensures score.None? <==> !ScoringEnabled(e)
    ensures score.Some? ==> score.value.correct <= score.value.total <= |e.questions|
  {
    if !ScoringEnabled(e) {
      return None;
    }
    var primary := PrimaryLang(e);
    var correct, total := 0, 0;
    for i := 0 to |e.questions|
      invariant correct == SrcCorrect(e, answers, e.questions[..i])
      invariant total == SrcTotal(e.questions[..i])
    {
      var q := e.questions[i];
      assert e.questions[..i + 1][..i] == e.questions[..i];
      if q.answerKey.Given? && TruthyText(q.answerKey.value) {
        total := total + 1;
        var correctText := ResolveTruthy(q.answerKey, primary, Undefined);
        var userText := ResolveTruthy(AnswerFor(answers, q), primary, Undefined);
        if userText != NotAvailable && Lower(correctText) == Lower(userText) {
          correct := correct + 1;
        }
      }
    }
    assert e.questions[..|e.questions|] == e.questions;
    SrcCorrectAtMostTotal(e, answers, e.questions);
    return Some(Score(correct, total));
  }

  /** `getStatusForQuestion` */
  function SrcStatus(e: Exam, answers: Answers, q: Question): Status
  {
    var a := AnswerFor(answers, q);
    var u := ResolveTruthy(a, PrimaryLang(e), Undefined);
    if a.Undefined? || u == NotAvailable then NotAnswered
    else if !ScoringEnabled(e) || !SrcScorable(q) then NotScored
    else if SameIgnoringCase(ResolveTruthy(q.answerKey, PrimaryLang(e), Undefined), u) then Correct
    else Incorrect
  }

  /** With scoring on, the src score counts a question exactly when its status is Correct. */
  lemma SrcScoreAgreesWithStatus(e: Exam, answers: Answers, q: Question)
    requires ScoringEnabled(e)
    ensures SrcCountsCorrect(e, answers, q) <==> SrcStatus(e, answers, q) == Correct
  {
  }

  function CountStatus(e: Exam, answers: Answers, qs: seq<Question>, s: Status): nat
  {
    if |qs| == 0 then 0 else CountStatus(e, answers, qs[..|qs| - 1], s) + Count(SrcStatus(e, answers, qs[|qs| - 1]) == s)
  }

  /** With scoring on, the src score's `correct` is the number of questions whose status is Correct. */
  lemma {:induction false} SrcCorrectCountsCorrectStatuses(e: Exam, answers: Answers, qs: seq<Question>)
    requires ScoringEnabled(e)
    ensures SrcCorrect(e, answers, qs) == CountStatus(e, answers, qs, Correct)
  {
    if |qs| > 0 {
      SrcCorrectCountsCorrectStatuses(e, answers, qs[..|qs| - 1]);
      SrcScoreAgreesWithStatus(e, answers, qs[|qs| - 1]);
    }
  }

  /** An `""` answer key is scorable for the app's score and not for src's. */
  lemma EmptyKeyScoredOnlyByApp(q: Question)
    requires q.answerKey == Given(Plain(""))
    ensures AppScorable(q) && !SrcScorable(q)
  {
  }

  /** A typed answer that reads "N/A" is indistinguishable from no answer in src. */
  lemma SrcAnswerNAIsNotAnswered(e: Exam, answers: Answers, q: Question)
    requires Key(q.id) in answers && answers[Key(q.id)] == Plain(NotAvailable)
    ensures SrcStatus(e, answers, q) == NotAnswered
    ensures !SrcCountsCorrect(e, answers, q)
  {
  }
}
