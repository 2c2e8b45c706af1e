/**
 * The exam-taking screen: the exam being taken, the current question index,
 * the answers recorded so far (keyed by `q.id.toString()`), the selected
 * option and the open-answer text, with the handlers and the effect that
 * change them. The key-value store and the clock are parameters.
 */
module ExamSession {
  import opened Common
  import opened Exams
  import opened LangTextResolvers
  import Scoring

  /** What loading the exam did. */
  datatype LoadOutcome = Loaded | ExamNotFound | LoadFailed

  /** The parameters `handleFinishExam` passes to the results screen. */
  datatype Finished = Finished(exam: Exam, answers: Scoring.Answers, duration: int)

  /** The first exam of the list with the given id, as `allExams.find`. */
  function FindExam(exams: seq<Exam>, examId: string): (r: Option<Exam>)
    ensures r.None? <==> forall i :: 0 <= i < |exams| ==> !HasId(exams[i], examId)
    ensures r.Some? ==> exists i :: 0 <= i < |exams| && exams[i] == r.value && HasId(r.value, examId)
                                    && forall j :: 0 <= j < i ==> !HasId(exams[j], examId)
  {
    if |exams| == 0 then None
    else if HasId(exams[0], examId) then Some(exams[0])
    else
      var r := FindExam(exams[1..], examId);
      if r.Some? then
        var i :| 0 <= i < |exams[1..]| && exams[1..][i] == r.value && HasId(r.value, examId)
                 && forall j :: 0 <= j < i ==> !HasId(exams[1..][j], examId);
        assert exams[i + 1] == r.value;
        r
      else r
  }

  /** `getLangSpecificText(..., primaryLang)` of an option, the text an option is shown and compared by. */
  function MainText(t: LangText, primary: string): string
  {
    ResolveForSession(t, primary, Undefined)
  }

  /**
   * The highlight test of one option: a selection exists and is truthy, and
   * its main text equals the option's main text.
   */
  predicate IsSelected(selected: Option<LangText>, option: LangText, primary: string)
  {
    selected.Some? && TruthyText(selected.value) && MainText(selected.value, primary) == MainText(option, primary)
  }

  /** Options whose main texts agree are highlighted together, whatever is selected. */
  lemma EqualTextsHighlightTogether(selected: Option<LangText>, o1: LangText, o2: LangText, primary: string)
    requires MainText(o1, primary) == MainText(o2, primary)
    ensures IsSelected(selected, o1, primary) <==> IsSelected(selected, o2, primary)
  {
  }

  /**
   * A truthy selection highlights itself, and it highlights another option
   * exactly when that option shows the same main text; nothing is
   * highlighted without a selection.
   */
  lemma SelectionHighlights(s: LangText, option: LangText, primary: string)
    ensures IsSelected(Some(s), s, primary) <==> TruthyText(s)
    ensures TruthyText(s) ==> (IsSelected(Some(s), option, primary) <==> MainText(s, primary) == MainText(option, primary))
    ensures !IsSelected(None, option, primary)
  {
  }

  /** Two distinct options with the same main text: selecting one highlights both. */
  lemma SameTextDistinctOptions()
    ensures var a, b := Langs([Entry("en", "Paris"), Entry("es", "París")]), Plain("Paris");
            a != b && IsSelected(Some(a), b, "en") && IsSelected(Some(b), a, "en")
  {
    var es := [Entry("en", "Paris"), Entry("es", "París")];
    assert es[0].lang == "en";
    assert HasLang(es, "en") && TextFor(es, "en") == "Paris";
  }

  /**
   * The subtitle under the question: the secondary-language text (falling
   * back to the primary), shown only for a multilingual exam and only when it
   * is non-empty and differs from the main text.
   */
  function Subtitle(e: Exam, t: LangText): (r: Option<string>)
    ensures r.Some? <==> && IsMultilingual(e)
                         && ResolveForSession(t, SecondaryLang(e).value, Given(PrimaryLang(e))) != ""
                         && ResolveForSession(t, SecondaryLang(e).value, Given(PrimaryLang(e))) != MainText(t, PrimaryLang(e))
    ensures r.Some? ==> r.value == ResolveForSession(t, SecondaryLang(e).value, Given(PrimaryLang(e)))
    ensures t.Plain? ==> r.None?
  {
    if !IsMultilingual(e) then None
    else
      var sub := ResolveForSession(t, SecondaryLang(e).value, Given(PrimaryLang(e)));
      if sub != "" && sub != MainText(t, PrimaryLang(e)) then Some(sub) else None
  }

  class Session {
    var exam: Option<Exam>
    var index: nat
    var answers: Scoring.Answers
    var selectedOption: Option<LangText>
    /** The text-input value; the restore effect can place a map answer here too. */
    var openAnswer: LangText
    var isLoading: bool
    var startTime: Option<int>
    var finished: Option<Finished>

    /** No exam means the first question; with an exam of at least one question the index is in range. */
    predicate Valid()
      reads this
    {
      && (exam.None? ==> index == 0)
      && (exam.Some? && |exam.value.questions| > 0 ==> index < |exam.value.questions|)
    }

    /**
     * `exam?.questions[currentQuestionIndex]`, `undefined` past the end. Under
     * the cursor invariant a loaded exam with questions always has a current
     * question, and it is one of the exam's questions.
     */
    function CurrentQuestion(): (r: Option<Question>)
      reads this
      ensures Valid() && exam.Some? && |exam.value.questions| > 0 ==> r.Some?
      ensures r.Some? ==> exam.Some? && r.value in exam.value.questions
    {
      if exam.Some? && index < |exam.value.questions| then Some(exam.value.questions[index]) else None
    }

    /** The state the screen mounts with. */
    constructor ()
      ensures Valid()
      ensures exam == None && index == 0 && answers == map[]
      ensures selectedOption == None && openAnswer == Plain("")
      ensures isLoading && startTime == None && finished == None
    {
      exam := None;
      index := 0;
      answers := map[];
      selectedOption := None;
      openAnswer := Plain("");
      isLoading := true;
      startTime := None;
      finished := None;
    }

    /**
     * `loadExamDetails`: an empty or missing store and an unparsable one
     * fail; otherwise the first exam with the id is taken, the answers are
     * reset and the clock starts. Nothing else changes, and a failed load
     * leaves the exam as it was. The index is not reset, so only a load on
     * the first question (the one on mount) is sure to keep it in range.
     */
    method LoadExamDetails(stored: Blob<Exam>, examId: string, now: int) returns (outcome: LoadOutcome)
      modifies this
      ensures old(Valid()) && (outcome != Loaded || index == 0) ==> Valid()
      ensures outcome == Loaded <==> stored.Present? && FindExam(stored.items, examId).Some?
      ensures outcome == LoadFailed <==> !stored.Present?
      ensures outcome == Loaded ==>
                && exam == FindExam(stored.items, examId)
                && answers == map[]
                && startTime == Some(now)
      ensures outcome != Loaded ==> exam == old(exam) && answers == old(answers) && startTime == old(startTime)
      ensures index == old(index) && selectedOption == old(selectedOption) && openAnswer == old(openAnswer)
      ensures finished == old(finished)
      ensures !isLoading
    {
      isLoading := true;
      if !stored.Present? {
        outcome := LoadFailed;
      } else {
        var foundExam := FindExam(stored.items, examId);
        if foundExam.Some? {
          exam := foundExam;
          answers := map[];
          startTime := Some(now);
          outcome := Loaded;
        } else {
          outcome := ExamNotFound;
        }
      }
      isLoading := false;
    }

    /**
     * The effect that runs whenever the index, the exam or the answers
     * change: a multiple-choice question shows its truthy stored answer as the
     * selection and clears the text; an open-ended one shows its truthy
     * stored answer as the text (or `''`) and clears the selection. Without a
     * current question both are cleared.
     */
    method RestoreAnswer()
      modifies this
      ensures CurrentQuestion().Some? && CurrentQuestion().value.qtype == MultipleChoice ==>
                var a := Scoring.AnswerFor(answers, CurrentQuestion().value);
                && selectedOption == (if a.Given? && TruthyText(a.value) then Some(a.value) else None)
                && openAnswer == Plain("")
      ensures CurrentQuestion().Some? && CurrentQuestion().value.qtype == OpenEnded ==>
                var a := Scoring.AnswerFor(answers, CurrentQuestion().value);
                && openAnswer == (if a.Given? && TruthyText(a.value) then a.value else Plain(""))
                && selectedOption == None
      ensures CurrentQuestion().None? ==> selectedOption == None && openAnswer == Plain("")
      ensures exam == old(exam) && index == old(index) && answers == old(answers)
      ensures isLoading == old(isLoading) && startTime == old(startTime) && finished == old(finished)
    {
      var current := CurrentQuestion();
      if current.Some? {
        var currentQ := current.value;
        var existingAnswer := Scoring.AnswerFor(answers, currentQ);
        var truthy := existingAnswer.Given? && TruthyText(existingAnswer.value);
        if currentQ.qtype == MultipleChoice {
          selectedOption := if truthy then Some(existingAnswer.value) else None;
          openAnswer := Plain("");
        } else {
          openAnswer := if truthy then existingAnswer.value else Plain("");
          selectedOption := None;
        }
      } else {
        selectedOption := None;
        openAnswer := Plain("");
      }
    }

    /** `handleSelectOption`: the option becomes the selection and the current question's answer. */
    method SelectOption(option: LangText)
      modifies this
      ensures selectedOption == Some(option)
      ensures CurrentQuestion() == old(CurrentQuestion())
      ensures old(CurrentQuestion()).Some? ==> answers == old(answers)[Key(old(CurrentQuestion()).value.id) := option]
      ensures old(CurrentQuestion()).None? ==> answers == old(answers)
      ensures exam == old(exam) && index == old(index) && openAnswer == old(openAnswer)
      ensures isLoading == old(isLoading) && startTime == old(startTime) && finished == old(finished)
    {
      selectedOption := Some(option);
      var current := CurrentQuestion();
      if current.Some? {
        answers := answers[Key(current.value.id) := option];
      }
    }

    /** `handleOpenAnswerChange`: the text becomes the input value and the current question's answer. */
    method ChangeOpenAnswer(text: string)
      modifies this
      ensures openAnswer == Plain(text)
      ensures CurrentQuestion() == old(CurrentQuestion())
      ensures old(CurrentQuestion()).Some? ==> answers == old(answers)[Key(old(CurrentQuestion()).value.id) := Plain(text)]
      ensures old(CurrentQuestion()).None? ==> answers == old(answers)
      ensures exam == old(exam) && index == old(index) && selectedOption == old(selectedOption)
      ensures isLoading == old(isLoading) && startTime == old(startTime) && finished == old(finished)
    {
      openAnswer := Plain(text);
      var current := CurrentQuestion();
      if current.Some? {
        answers := answers[Key(current.value.id) := Plain(text)];
      }
    }

    /**
     * `handleFinishExam`: with an exam and a started (non-zero) clock, the
     * exam, the answers and the elapsed time go to the results screen.
     */
    method FinishExam(now: int)
      modifies this
      ensures exam.Some? && startTime.Some? && startTime.value != 0 ==>
                finished == Some(Finished(exam.value, answers, now - startTime.value))
      ensures !(exam.Some? && startTime.Some? && startTime.value != 0) ==> finished == old(finished)
      ensures exam == old(exam) && index == old(index) && answers == old(answers)
      ensures selectedOption == old(selectedOption) && openAnswer == old(openAnswer)
      ensures isLoading == old(isLoading) && startTime == old(startTime)
    {
      if exam.None? || startTime.None? || startTime.value == 0 {
        return;
      }
      var duration := now - startTime.value;
      finished := Some(Finished(exam.value, answers, duration));
    }

    /**
     * `handleNextQuestion`: with a current question, move on when it is not
     * the last one, and finish on the last one with the index unchanged.
     */
    method NextQuestion(now: int)
      requires Valid()
      modifies this
      ensures Valid()
      ensures old(CurrentQuestion()).Some? && old(index) < |old(exam).value.questions| - 1 ==>
                index == old(index) + 1 && finished == old(finished)
      ensures old(CurrentQuestion()).Some? && old(index) == |old(exam).value.questions| - 1 ==>
                index == old(index)
                && (startTime.Some? && startTime.value != 0 ==> finished == Some(Finished(old(exam).value, old(answers), now - startTime.value)))
                && (!(startTime.Some? && startTime.value != 0) ==> finished == old(finished))
      ensures old(CurrentQuestion()).None? ==> index == old(index) && finished == old(finished)
      ensures exam == old(exam) && answers == old(answers)
      ensures selectedOption == old(selectedOption) && openAnswer == old(openAnswer)
      ensures isLoading == old(isLoading) && startTime == old(startTime)
    {
      var current := CurrentQuestion();
      if current.None? {
        return;
      }
      if index < |exam.value.questions| - 1 {
        index := index + 1;
      } else {
        FinishExam(now);
      }
    }

    /** `handlePreviousQuestion`: step back unless on the first question. */
    method PreviousQuestion()
      requires Valid()
      modifies this
      ensures Valid()
      ensures index == if old(index) > 0 then old(index) - 1 else old(index)
      ensures exam == old(exam) && answers == old(answers)
      ensures selectedOption == old(selectedOption) && openAnswer == old(openAnswer)
      ensures isLoading == old(isLoading) && startTime == old(startTime) && finished == old(finished)
    {
      if index > 0 {
        index := index - 1;
      }
    }
  }

  /**
   * Answering the current question and then letting the restore effect run
   * shows that answer again: a truthy option stays selected, and a non-empty
   * text stays in the input.
   */
  method AnswerThenRestore(s: Session, option: LangText, text: string)
    requires s.CurrentQuestion().Some?
    modifies s
    ensures s.CurrentQuestion().Some?
    ensures s.CurrentQuestion().value.qtype == MultipleChoice && TruthyText(option) ==> s.selectedOption == Some(option)
    ensures s.CurrentQuestion().value.qtype == OpenEnded && text != "" ==> s.openAnswer == Plain(text)
  {
    if s.CurrentQuestion().value.qtype == MultipleChoice {
      s.SelectOption(option);
    } else {
      s.ChangeOpenAnswer(text);
    }
    s.RestoreAnswer();
  }
}
