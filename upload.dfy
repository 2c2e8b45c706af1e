/**
 * `handleFileUpload` of the two upload screens: the schema-error report (an
 * instance path rewritten for display, `path: message`, one line per error),
 * the business rule that rejects a multiple-choice question without options
 * at the first such question, the identifier excerpt quoted in that message,
 * and the save that appends the exam with a fresh id to the stored list.
 *
 * The picker, the file read, `JSON.parse`, Ajv and the clock are outside the
 * model: their results are parameters.
 */
module Upload {
  import opened Common
  import opened Json
  import opened Strings
  import opened Exams
  import ExamSchema

  /** The two copies of the screen differ in the third path rewrite and in an empty pick. */
  datatype Copy = SrcCopy | AppCopy

  // ---------------------------------------------------------------------------
  // Schema errors
  // ---------------------------------------------------------------------------

  /** What the report reads from each Ajv error object. */
  datatype SchemaError = SchemaError(instancePath: string, message: string)

  const RootLabel := "Exam data (root)"

  predicate IsFieldName(s: string)
  {
    s == "options" || s == "answerKey" || s == "question" || s == "type" || s == "id"
  }

  /** The number of leading characters of `s` that satisfy `c`-equality, for `]+`. */
  function RunOf(s: string, c: char): (n: nat)
    ensures n <= |s|
    ensures forall k :: 0 <= k < n ==> s[k] == c
    ensures n < |s| ==> s[n] != c
  {
    if |s| > 0 && s[0] == c then 1 + RunOf(s[1..], c) else 0
  }

  function DigitRun(s: string): (n: nat)
    ensures n <= |s|
    ensures AllDigits(s[..n])
    ensures n < |s| ==> !IsDigit(s[n])
  {
    if |s| > 0 && IsDigit(s[0]) then
      var n := 1 + DigitRun(s[1..]);
      assert s[..n] == [s[0]] + s[1..][..n - 1];
      n
    else 0
  }

  /**
   * src: `/^questions\.A-Za-z0-9_]+\.(options|answerKey|question|type|id)$/`
   * replaced by `questions[$1].$2`. The class has no opening bracket, so the
   * pattern is the literal `questions.A-Za-z0-9_`, one or more `]`, a dot and
   * a field name; `$2` names no group and stays as written.
   */
  function SrcRewrite(path: string): string
  {
    var head := "questions.A-Za-z0-9_";
    if !StartsWith(path, head) then path
    else
      var rest := path[|head|..];
      var n := RunOf(rest, ']');
      if n >= 1 && n < |rest| && rest[n] == '.' && IsFieldName(rest[n + 1..])
      then "questions[" + rest[n + 1..] + "].$2"
      else path
  }

  /** app: `/^questions\.(\d+)\.(options|answerKey|question|type|id)$/` replaced by `questions[$1].$2`. */
  function AppRewrite(path: string): string
  {
    var head := "questions.";
    if !StartsWith(path, head) then path
    else
      var rest := path[|head|..];
      var n := DigitRun(rest);
      if n >= 1 && n < |rest| && rest[n] == '.' && IsFieldName(rest[n + 1..])
      then "questions[" + rest[..n] + "]." + rest[n + 1..]
      else path
  }

  /** The display path of one error. */
  function FormatPath(copy: Copy, instancePath: string): string
  {
    var path := ReplaceChar(From(instancePath, 1), '/', '.');
    if path == "" then RootLabel
    else if StartsWith(instancePath, "/questions") then "questions" + ReplaceChar(From(instancePath, 10), '/', '.')
    else if copy == SrcCopy then SrcRewrite(path)
    else AppRewrite(path)
  }

  function ErrorLine(copy: Copy, err: SchemaError): string
  {
    FormatPath(copy, err.instancePath) + ": " + err.message
  }

  function ErrorLines(copy: Copy, errs: seq<SchemaError>): seq<string>
  {
    seq(|errs|, i requires 0 <= i < |errs| => ErrorLine(copy, errs[i]))
  }

  /** The `errorMessages` text. */
  function ErrorReport(copy: Copy, errs: seq<SchemaError>): string
  {
    Join(ErrorLines(copy, errs), "\n")
  }

  /** The root of the document is labelled as such. */
  lemma RootPathLabel(copy: Copy)
    ensures FormatPath(copy, "") == RootLabel
  {
  }

  /** A path under `/questions` is `questions` followed by the rest in dot form. */
  lemma QuestionsPathDotted(copy: Copy, rest: string)
    ensures FormatPath(copy, "/questions" + rest) == "questions" + ReplaceChar(rest, '/', '.')
  {
    var p := "/questions" + rest;
    assert p[..10] == "/questions";
    assert p[10..] == rest;
    assert ReplaceChar(From(p, 1), '/', '.')[0] == 'q';
  }

  lemma {:induction false} ReplaceKeepsPrefix(s: string, prefix: string)
    requires forall k :: 0 <= k < |prefix| ==> prefix[k] != '/' && prefix[k] != '.'
    ensures StartsWith(ReplaceChar(s, '/', '.'), prefix) ==> StartsWith(s, prefix)
  {
    var r := ReplaceChar(s, '/', '.');
    if StartsWith(r, prefix) {
      forall k | 0 <= k < |prefix| ensures s[k] == prefix[k] {
        assert r[k] == prefix[k];
      }
      assert s[..|prefix|] == prefix;
    }
  }

  lemma SlashPrefix(p: string, prefix: string)
    requires |p| >= 1 && p[0] == '/'
    ensures StartsWith(p[1..], prefix) ==> StartsWith(p, "/" + prefix)
  {
    if StartsWith(p[1..], prefix) {
      assert p[..|prefix| + 1] == [p[0]] + p[1..][..|prefix|];
    }
  }

  /**
   * Ajv's instance paths are `""` or start with `/`; for
   * every such path the third rewrite returns its input, so the display path
   * is the root label, the `questions` form, or the path in dot form.
   */
  lemma {:induction false} ThirdRewriteIdle(copy: Copy, p: string)
    requires p == "" || p[0] == '/'
    requires !StartsWith(p, "/questions")
    ensures FormatPath(copy, p) == if |p| <= 1 then RootLabel else ReplaceChar(p[1..], '/', '.')
  {
    if |p| > 1 {
      var path := ReplaceChar(From(p, 1), '/', '.');
      ReplaceKeepsPrefix(p[1..], "questions");
      SlashPrefix(p, "questions");
      assert From(p, 1) == p[1..];
      assert "/" + "questions" == "/questions";
      assert !StartsWith(path, "questions");
      PrefixOfPrefix(path, "questions", ".A-Za-z0-9_");
      PrefixOfPrefix(path, "questions", ".");
      assert "questions" + ".A-Za-z0-9_" == "questions.A-Za-z0-9_" && "questions" + "." == "questions.";
      assert !StartsWith(path, "questions.A-Za-z0-9_") && !StartsWith(path, "questions.");
    }
  }

  /** An instance path not starting with `/` does reach the src rewrite. */
  lemma SrcRewriteFires()
    ensures FormatPath(SrcCopy, "xquestions/A-Za-z0-9_]/id") == "questions[id].$2"
  {
    var p := "xquestions/A-Za-z0-9_]/id";
    DottedPath(p, "questions.A-Za-z0-9_].id");
    assert p[0] != '/';
    assert !StartsWith(p, "/questions");
    SrcRewriteExample();
  }

  lemma SrcRewriteExample()
    ensures SrcRewrite("questions.A-Za-z0-9_].id") == "questions[id].$2"
  {
    var path := "questions.A-Za-z0-9_].id";
    assert StartsWith(path, "questions.A-Za-z0-9_");
    var rest := path[20..];
    assert rest == "].id";
    assert RunOf(rest, ']') == 1;
    assert rest[2..] == "id";
  }

  /** The app rewrite brackets the question index when it is reached. */
  lemma AppRewriteFires()
    ensures FormatPath(AppCopy, "xquestions/2/id") == "questions[2].id"
  {
    var p := "xquestions/2/id";
    DottedPath(p, "questions.2.id");
    assert p[0] != '/';
    assert !StartsWith(p, "/questions");
    AppRewriteExample();
  }

  lemma AppRewriteExample()
    ensures AppRewrite("questions.2.id") == "questions[2].id"
  {
    var path := "questions.2.id";
    assert StartsWith(path, "questions.");
    var rest := path[10..];
    assert rest == "2.id";
    assert DigitRun(rest) == 1;
    assert rest[..1] == "2" && rest[2..] == "id";
  }

  /** The dot form of an instance path whose first character is dropped. */
  lemma DottedPath(p: string, dotted: string)
    requires |p| >= 1 && |dotted| == |p| - 1
    requires forall i :: 0 <= i < |dotted| ==> dotted[i] == (if p[i + 1] == '/' then '.' else p[i + 1])
    ensures ReplaceChar(From(p, 1), '/', '.') == dotted
  {
    var r := ReplaceChar(From(p, 1), '/', '.');
    assert forall i :: 0 <= i < |r| ==> r[i] == dotted[i];
  }

  /** `/questions/2/options` is shown as `questions.2.options`. */
  lemma QuestionsPathExample(copy: Copy)
    ensures FormatPath(copy, "/questions/2/options") == "questions.2.options"
  {
    QuestionsPathStep(copy);
    assert "questions" + ".2.options" == "questions.2.options";
  }

  lemma QuestionsPathStep(copy: Copy)
    ensures FormatPath(copy, "/questions/2/options") == "questions" + ".2.options"
  {
    DottedIndexOptions();
    QuestionsPathDotted(copy, "/2/options");
    assert "/questions" + "/2/options" == "/questions/2/options";
  }

  lemma DottedIndexOptions()
    ensures ReplaceChar("/2/options", '/', '.') == ".2.options"
  {
    var r := ReplaceChar("/2/options", '/', '.');
    assert forall i :: 0 <= i < |r| ==> r[i] == ".2.options"[i];
  }

  /**
   * When no path or message holds a line break, splitting the report at `\n`
   * gives back one `path: message` line per error, in order.
   */
  lemma ErrorReportLines(copy: Copy, errs: seq<SchemaError>)
    requires |errs| >= 1
    requires forall i, k :: 0 <= i < |errs| && 0 <= k < |errs[i].instancePath| ==> errs[i].instancePath[k] != '\n'
    requires forall i, k :: 0 <= i < |errs| && 0 <= k < |errs[i].message| ==> errs[i].message[k] != '\n'
    ensures Split(ErrorReport(copy, errs), '\n') == ErrorLines(copy, errs)
    ensures forall i :: 0 <= i < |errs| ==> ErrorLines(copy, errs)[i] == FormatPath(copy, errs[i].instancePath) + ": " + errs[i].message
  {
    var lines := ErrorLines(copy, errs);
    forall i, k | 0 <= i < |lines| && 0 <= k < |lines[i]| ensures lines[i][k] != '\n' {
      NoBreakInLine(copy, errs[i]);
    }
    SplitJoin(lines, '\n');
  }

  lemma NoBreakInLine(copy: Copy, err: SchemaError)
    requires forall k :: 0 <= k < |err.instancePath| ==> err.instancePath[k] != '\n'
    requires forall k :: 0 <= k < |err.message| ==> err.message[k] != '\n'
    ensures forall k :: 0 <= k < |ErrorLine(copy, err)| ==> ErrorLine(copy, err)[k] != '\n'
  {
    var q := FormatPath(copy, err.instancePath);
    FormatPathNoBreak(copy, err.instancePath);
    var line := q + ": " + err.message;
    forall k | 0 <= k < |line| ensures line[k] != '\n' {
      if k < |q| { assert line[k] == q[k]; }
      else if k < |q| + 2 { assert line[k] == ": "[k - |q|]; }
      else { assert line[k] == err.message[k - |q| - 2]; }
    }
  }

  /** A display path has a line break only where its instance path has one. */
  lemma FormatPathNoBreak(copy: Copy, p: string)
    requires forall k :: 0 <= k < |p| ==> p[k] != '\n'
    ensures forall k :: 0 <= k < |FormatPath(copy, p)| ==> FormatPath(copy, p)[k] != '\n'
  {
    var path := ReplaceChar(From(p, 1), '/', '.');
    assert forall k :: 0 <= k < |path| ==> path[k] != '\n';
    var tail := ReplaceChar(From(p, 10), '/', '.');
    assert forall k :: 0 <= k < |tail| ==> tail[k] != '\n';
    assert forall k :: 0 <= k < |"questions" + tail| ==> ("questions" + tail)[k] != '\n';
    if copy == SrcCopy {
      SrcRewriteNoBreak(path);
    } else {
      AppRewriteNoBreak(path);
    }
  }

  lemma SrcRewriteNoBreak(path: string)
    requires forall k :: 0 <= k < |path| ==> path[k] != '\n'
    ensures forall k :: 0 <= k < |SrcRewrite(path)| ==> SrcRewrite(path)[k] != '\n'
  {
    var r := SrcRewrite(path);
    if r != path {
      var rest := path[20..];
      var n := RunOf(rest, ']');
      var field := rest[n + 1..];
      assert r == "questions[" + field + "].$2";
      forall k | 0 <= k < |r| ensures r[k] != '\n' {
        if 10 <= k < 10 + |field| { assert r[k] == path[20 + n + 1 + (k - 10)]; }
      }
    }
  }

  lemma AppRewriteNoBreak(path: string)
    requires forall k :: 0 <= k < |path| ==> path[k] != '\n'
    ensures forall k :: 0 <= k < |AppRewrite(path)| ==> AppRewrite(path)[k] != '\n'
  {
    var r := AppRewrite(path);
    if r != path {
      var rest := path[10..];
      var n := DigitRun(rest);
      assert r == "questions[" + rest[..n] + "]." + rest[n + 1..];
      forall k | 0 <= k < |r| ensures r[k] != '\n' {
        if 10 <= k < 10 + n { assert r[k] == rest[k - 10]; }
        else if 12 + n <= k { assert r[k] == rest[n + 1 + (k - 12 - n)]; }
      }
    }
  }

  // ---------------------------------------------------------------------------
  // The business rule
  // ---------------------------------------------------------------------------

  /** `!q.options`, an empty array, or an object with no keys. */
  predicate MissingOptions(q: Question)
  {
    || !q.options.Given?
    || q.options.value == OptionList([])
    || q.options.value == OptionsByLang([])
  }

  predicate ViolatesRule(q: Question)
  {
    q.qtype == MultipleChoice && MissingOptions(q)
  }

  /**
   * `questionIdentifier`: a plain-string question is quoted verbatim (the
   * conditional binds looser than `||`, so even `""` is kept); a map question
   * by its first key's text, or `Question {i+1}` when that text is empty.
   */
  function Excerpt(q: Question, i: nat): (r: string)
    ensures q.question.Plain? ==> r == q.question.s
    ensures q.question.Langs? ==> r != ""
    ensures q.question.Langs? && q.question.entries != [] && q.question.entries[0].text != "" ==> r == q.question.entries[0].text
    ensures q.question.Langs? && (q.question.entries == [] || q.question.entries[0].text == "") ==> r == "Question " + NatToString(i + 1)
  {
    match q.question
    case Plain(s) => s
    case Langs(es) =>
      var fallback := "Question " + NatToString(i + 1);
      var first := if |es| > 0 then es[0].text else fallback;
      if first != "" then first else fallback
  }

  datatype Violation = Violation(index: nat, excerpt: string)

  function ViolationMessage(v: Violation): string
  {
    "Question \"" + v.excerpt + "\" (at index " + NatToString(v.index)
      + ") is multiple-choice but has no options or empty options."
  }

  /** The `for` loop with its early return: the lowest-index question the rule rejects. */
  method FirstViolation(qs: seq<Question>) returns (r: Option<Violation>)
    ensures r.None? <==> forall i :: 0 <= i < |qs| ==> !ViolatesRule(qs[i])
    ensures r.Some? ==>
              && r.value.index < |qs|
              && ViolatesRule(qs[r.value.index])
              && (forall j :: 0 <= j < r.value.index ==> !ViolatesRule(qs[j]))
              && r.value.excerpt == Excerpt(qs[r.value.index], r.value.index)
  {
    for i := 0 to |qs|
      invariant forall j :: 0 <= j < i ==> !ViolatesRule(qs[j])
    {
      var question := qs[i];
      var identifier := Excerpt(question, i);
      if question.qtype == MultipleChoice {
        if !question.options.Given? || question.options.value == OptionList([]) || question.options.value == OptionsByLang([]) {
          return Some(Violation(i, identifier));
        }
      }
    }
    return None;
  }

  /**
   * On a document the schema accepted, the rule rejects a question exactly
   * when it is multiple-choice and its `options` member is absent or `null`:
   * the schema already forbids empty arrays and empty maps.
   */
  lemma RuleOnAcceptedDocument(doc: Json, i: nat)
    requires ExamSchema.ValidExam(doc)
    requires i < |ExamOf(doc).questions|
    ensures var item := Get(doc.members, "questions").value.items[i];
            ViolatesRule(ExamOf(doc).questions[i]) <==>
              && Get(item.members, "type") == Some(JStr("multiple-choice"))
              && (!Has(item.members, "options") || Get(item.members, "options") == Some(JNull))
  {
    ExamOfAccepted(doc);
    var item := Get(doc.members, "questions").value.items[i];
    assert ExamSchema.Question(item);
    assert ExamOf(doc).questions[i] == QuestionOf(item);
    RuleOnAcceptedQuestion(item);
  }

  /** The same on one accepted question item. */
  lemma RuleOnAcceptedQuestion(item: Json)
    requires ExamSchema.Question(item)
    ensures ViolatesRule(QuestionOf(item)) <==>
              && Get(item.members, "type") == Some(JStr("multiple-choice"))
              && (!Has(item.members, "options") || Get(item.members, "options") == Some(JNull))
  {
    QuestionOfAcceptedOptions(item);
  }

  // ---------------------------------------------------------------------------
  // The pipeline
  // ---------------------------------------------------------------------------

  /** What picking and reading the file produced. */
  datatype Picked =
    | Cancelled
    | NoAssets
    | ReadFailed
    | Unparsable
    | Parsed(doc: Json)

  datatype UploadOutcome =
    | SelectionCancelled
    | NothingSelected
    | ReadError
    | InvalidJson
    | InvalidStructure(report: string)
    | InvalidQuestion(message: string)
    | StorageError
    | Uploaded(exam: Exam)

  /**
   * The steps after `JSON.parse` succeeded: schema validation, the business
   * rule, and the append to the stored list.
   */
  method AcceptDocument(copy: Copy, doc: Json, schemaErrors: seq<SchemaError>, stored: Blob<Exam>, newId: string)
    returns (outcome: UploadOutcome, written: Option<seq<Exam>>)
    ensures written.Some? <==> outcome.Uploaded?
    ensures !ExamSchema.ValidExam(doc) ==> outcome == InvalidStructure(ErrorReport(copy, schemaErrors))
    ensures outcome.InvalidQuestion? <==>
              ExamSchema.ValidExam(doc) && exists i :: 0 <= i < |ExamOf(doc).questions| && ViolatesRule(ExamOf(doc).questions[i])
    ensures outcome.InvalidQuestion? ==>
              var qs := ExamOf(doc).questions;
              exists i :: 0 <= i < |qs| && ViolatesRule(qs[i]) && (forall j :: 0 <= j < i ==> !ViolatesRule(qs[j]))
                          && outcome.message == ViolationMessage(Violation(i, Excerpt(qs[i], i)))
    ensures outcome == StorageError <==>
              && ExamSchema.ValidExam(doc)
              && (forall i :: 0 <= i < |ExamOf(doc).questions| ==> !ViolatesRule(ExamOf(doc).questions[i]))
              && stored.Unreadable?
    ensures outcome.Uploaded? ==>
              && ExamSchema.ValidExam(doc)
              && (forall i :: 0 <= i < |ExamOf(doc).questions| ==> !ViolatesRule(ExamOf(doc).questions[i]))
              && !stored.Unreadable?
              && outcome.exam == ExamOf(doc).(id := Given(newId))
              && written == Some(ItemsOrEmpty(stored) + [outcome.exam])
    ensures outcome.InvalidStructure? || outcome.InvalidQuestion? || outcome == StorageError || outcome.Uploaded?
  {
    if !ExamSchema.ValidExam(doc) {
      return InvalidStructure(ErrorReport(copy, schemaErrors)), None;
    }
    var validatedExam := ExamOf(doc);
    outcome, written := AcceptExam(validatedExam, stored, newId);
  }

  /** The business rule and the append, on the exam the schema accepted. */
  method AcceptExam(validatedExam: Exam, stored: Blob<Exam>, newId: string)
    returns (outcome: UploadOutcome, written: Option<seq<Exam>>)
    ensures written.Some? <==> outcome.Uploaded?
    ensures outcome.InvalidQuestion? <==>
              exists i :: 0 <= i < |validatedExam.questions| && ViolatesRule(validatedExam.questions[i])
    ensures outcome.InvalidQuestion? ==>
              var qs := validatedExam.questions;
              exists i :: 0 <= i < |qs| && ViolatesRule(qs[i]) && (forall j :: 0 <= j < i ==> !ViolatesRule(qs[j]))
                          && outcome.message == ViolationMessage(Violation(i, Excerpt(qs[i], i)))
    ensures outcome == StorageError <==>
              && (forall i :: 0 <= i < |validatedExam.questions| ==> !ViolatesRule(validatedExam.questions[i]))
              && stored.Unreadable?
    ensures outcome.Uploaded? ==>
              && (forall i :: 0 <= i < |validatedExam.questions| ==> !ViolatesRule(validatedExam.questions[i]))
              && !stored.Unreadable?
              && outcome.exam == validatedExam.(id := Given(newId))
              && written == Some(ItemsOrEmpty(stored) + [outcome.exam])
    ensures outcome.InvalidQuestion? || outcome == StorageError || outcome.Uploaded?
  {
    var violation := FirstViolation(validatedExam.questions);
    if violation.Some? {
      return InvalidQuestion(ViolationMessage(violation.value)), None;
    }
    var examWithId := validatedExam.(id := Given(newId));
    if stored.Unreadable? {
      return StorageError, None;
    }
    var existingExams := ItemsOrEmpty(stored);
    existingExams := existingExams + [examWithId];
    return Uploaded(examWithId), Some(existingExams);
  }

  /**
   * One run of `handleFileUpload`. `schemaErrors` are Ajv's errors for the
   * document, `stored` is what `getItem('exams')` yields, and `newId` is
   * `Date.now().toString()`. `written` is the list passed to `setItem`, if any.
   */
  method HandleFileUpload(copy: Copy, picked: Picked, schemaErrors: seq<SchemaError>, stored: Blob<Exam>, newId: string)
    returns (outcome: UploadOutcome, written: Option<seq<Exam>>)
    ensures written.Some? <==> outcome.Uploaded?
    ensures picked.Cancelled? ==> outcome == SelectionCancelled
    ensures picked.NoAssets? ==> outcome == if copy == SrcCopy then SelectionCancelled else NothingSelected
    ensures picked.ReadFailed? ==> outcome == ReadError
    ensures picked.Unparsable? ==> outcome == InvalidJson
    ensures picked.Parsed? && !ExamSchema.ValidExam(picked.doc) ==> outcome == InvalidStructure(ErrorReport(copy, schemaErrors))
    ensures outcome.InvalidQuestion? <==>
              && picked.Parsed? && ExamSchema.ValidExam(picked.doc)
              && exists i :: 0 <= i < |ExamOf(picked.doc).questions| && ViolatesRule(ExamOf(picked.doc).questions[i])
    ensures outcome.InvalidQuestion? ==>
              var qs := ExamOf(picked.doc).questions;
              exists i :: 0 <= i < |qs| && ViolatesRule(qs[i]) && (forall j :: 0 <= j < i ==> !ViolatesRule(qs[j]))
                          && outcome.message == ViolationMessage(Violation(i, Excerpt(qs[i], i)))
    ensures outcome == StorageError <==>
              && picked.Parsed? && ExamSchema.ValidExam(picked.doc)
              && (forall i :: 0 <= i < |ExamOf(picked.doc).questions| ==> !ViolatesRule(ExamOf(picked.doc).questions[i]))
              && stored.Unreadable?
    ensures outcome.Uploaded? ==>
              && picked.Parsed? && ExamSchema.ValidExam(picked.doc)
              && (forall i :: 0 <= i < |ExamOf(picked.doc).questions| ==> !ViolatesRule(ExamOf(picked.doc).questions[i]))
              && !stored.Unreadable?
              && outcome.exam == ExamOf(picked.doc).(id := Given(newId))
              && written == Some(ItemsOrEmpty(stored) + [outcome.exam])
  {
    match picked
    case Cancelled =>
      return SelectionCancelled, None;
    case NoAssets =>
      return (if copy == SrcCopy then SelectionCancelled else NothingSelected), None;
    case ReadFailed =>
      return ReadError, None;
    case Unparsable =>
      return InvalidJson, None;
    case Parsed(doc) =>
      outcome, written := AcceptDocument(copy, doc, schemaErrors, stored, newId);
  }

  /** After an upload the stored list grows by exactly one exam, at the end, and nothing before it changes. */
  lemma UploadAppendsOne(stored: Blob<Exam>, written: seq<Exam>, exam: Exam)
    requires !stored.Unreadable?
    requires written == ItemsOrEmpty(stored) + [exam]
    ensures |written| == |ItemsOrEmpty(stored)| + 1
    ensures written[..|written| - 1] == ItemsOrEmpty(stored)
    ensures written[|written| - 1] == exam
    ensures stored.Missing? ==> written == [exam]
  {
  }
}
