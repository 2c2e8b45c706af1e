/**
 * Worked attempts: a one-question exam keyed "Paris", scoring switched off,
 * an end-to-end two-question attempt, and an empty option list. Each shows
 * both results screens side by side.
 */
module Scenarios {
  import opened Common
  import opened Exams
  import opened Scoring
  import Upload

  function OpenQuestion(id: string, text: string, key: string): Question
  {
    Question(StrId(id), OpenEnded, Undefined, Plain(text), Undefined, Given(Plain(key)), Undefined, [])
  }

  function ChoiceQuestion(id: string, text: string, options: seq<string>, key: string): Question
  {
    Question(StrId(id), MultipleChoice, Undefined, Plain(text),
             Given(OptionList(seq(|options|, i requires 0 <= i < |options| => Plain(options[i])))),
             Given(Plain(key)), Undefined, [])
  }

  function ExamWith(questions: seq<Question>, includeAnswerKey: Nullable<bool>): Exam
  {
    Exam(Given("1"), "T", Undefined, includeAnswerKey, questions, [])
  }

  /** Answers are compared ignoring case but not trimmed; a missing answer is counted in the total only. */
  lemma CapitalCityAttempts()
    ensures var e := ExamWith([OpenQuestion("1", "Capital of France?", "Paris")], Given(true));
            var q := e.questions[0];
            && AppScore(e, map["1" := Plain("paris")]) == Some(Score(1, 1))
            && SrcScore(e, map["1" := Plain("paris")]) == Some(Score(1, 1))
            && AppStatus(e, map["1" := Plain("paris")], q) == Correct
            && SrcStatus(e, map["1" := Plain("paris")], q) == Correct
            && AppScore(e, map["1" := Plain(" Paris")]) == Some(Score(0, 1))
            && SrcScore(e, map["1" := Plain(" Paris")]) == Some(Score(0, 1))
            && AppStatus(e, map["1" := Plain(" Paris")], q) == Incorrect
            && SrcStatus(e, map["1" := Plain(" Paris")], q) == Incorrect
            && AppScore(e, map[]) == Some(Score(0, 1))
            && SrcScore(e, map[]) == Some(Score(0, 1))
            && AppStatus(e, map[], q) == NotAnswered
            && SrcStatus(e, map[], q) == NotAnswered
  {
    var e := ExamWith([OpenQuestion("1", "Capital of France?", "Paris")], Given(true));
    assert e.questions[..0] == [];
    assert Strings.Lower("Paris") == "paris";
    assert Strings.Lower("paris") == "paris";
    assert Strings.Lower(" Paris")[0] == ' ';
  }

  /** With `includeAnswerKey` false there is no score at all, which is not a score of 0 out of 0. */
  lemma ScoringOffHasNoScore(answers: Answers)
    ensures var e := ExamWith([OpenQuestion("1", "Capital of France?", "Paris")], Given(false));
            && AppScore(e, answers) == None && AppScore(e, answers) != Some(Score(0, 0))
            && SrcScore(e, answers) == None && SrcScore(e, answers) != Some(Score(0, 0))
            && AppStatus(e, map["1" := Plain("Paris")], e.questions[0]) == NotScored
            && SrcStatus(e, map["1" := Plain("Paris")], e.questions[0]) == NotScored
  {
  }

  /** Two questions, answers `{"1": "42", "2": "b"}`: one of two correct, on both screens. */
  lemma TwoQuestionAttempt()
    ensures var e := ExamWith([OpenQuestion("1", "Q1", "42"), ChoiceQuestion("2", "Q2", ["a", "b"], "a")], Given(true));
            var answers := map["1" := Plain("42"), "2" := Plain("b")];
            && AppScore(e, answers) == Some(Score(1, 2))
            && SrcScore(e, answers) == Some(Score(1, 2))
            && AppStatus(e, answers, e.questions[0]) == Correct
            && AppStatus(e, answers, e.questions[1]) == Incorrect
            && SrcStatus(e, answers, e.questions[0]) == Correct
            && SrcStatus(e, answers, e.questions[1]) == Incorrect
  {
    var e := ExamWith([OpenQuestion("1", "Q1", "42"), ChoiceQuestion("2", "Q2", ["a", "b"], "a")], Given(true));
    var answers := map["1" := Plain("42"), "2" := Plain("b")];
    assert "1" != "2";
    assert AnswerFor(answers, e.questions[0]) == Given(Plain("42"));
    assert AnswerFor(answers, e.questions[1]) == Given(Plain("b"));
    assert Strings.Lower("42") == "42";
    assert Strings.Lower("a") == "a";
    assert Strings.Lower("b") == "b";
    assert AppCountsCorrect(e, answers, e.questions[0]) && !AppCountsCorrect(e, answers, e.questions[1]);
    assert SrcCountsCorrect(e, answers, e.questions[0]) && !SrcCountsCorrect(e, answers, e.questions[1]);
    assert e.questions[..1] == [e.questions[0]];
    assert e.questions[..1][..0] == [];
    assert AppCorrect(e, answers, e.questions[..1]) == 1;
    assert AppCorrect(e, answers, e.questions) == 1;
    assert AppTotal(e.questions) == 2;
    assert SrcCorrect(e, answers, e.questions) == 1;
    assert SrcTotal(e.questions) == 2;
  }

  /** An empty option list on a multiple-choice question is rejected by the business rule at its index. */
  method EmptyOptionsRejected() returns (v: Option<Upload.Violation>)
    ensures v == Some(Upload.Violation(1, "Q2"))
  {
    var qs := [OpenQuestion("1", "Q1", "42"), ChoiceQuestion("2", "Q2", [], "a")];
    assert !Upload.ViolatesRule(qs[0]);
    assert Upload.ViolatesRule(qs[1]);
    v := Upload.FirstViolation(qs);
  }
}
