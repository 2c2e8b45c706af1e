/**
 * The text the results screens produce: the `MM:SS` duration, CSV field
 * escaping (section 2, rules 6 and 7, of RFC 4180, with rows separated by
 * `\n` instead of CRLF), the export record and its CSV rows, the score text,
 * the sanitised file title and name, and the src JSON export that annotates
 * a copy of the exam with each answer.
 */
module Export {
  import opened Common
  import opened Json
  import opened Strings
  import opened Exams
  import opened LangTextResolvers
  import opened Scoring

  // ---------------------------------------------------------------------------
  // formatDuration
  // ---------------------------------------------------------------------------

  /** JavaScript's `%`, which truncates toward zero; Dafny's `%` is Euclidean. */
  function JsRem(a: int, b: int): (r: int)
    requires b > 0
    ensures a >= 0 ==> r == a % b
    ensures -b < r < b
  {
    if a >= 0 then a % b else -((-a) % b)
  }

  /** `formatDuration(ms)`: `Math.floor` divisions, a truncating `%`, both fields padded to two. */
  function FormatDuration(ms: int): string
  {
    var totalSeconds := ms / 1000;
    var minutes := totalSeconds / 60;
    var seconds := JsRem(totalSeconds, 60);
    PadStart(IntToString(minutes), 2, '0') + ":" + PadStart(IntToString(seconds), 2, '0')
  }

  lemma PadStartDigits(s: string)
    requires AllDigits(s)
    ensures var p := PadStart(s, 2, '0');
            |p| >= 2 && |p| == (if |s| >= 2 then |s| else 2) && AllDigits(p) && DigitsValue(p) == DigitsValue(s)
  {
    if |s| < 2 {
      LeadingZerosValue(2 - |s|, s);
    }
  }

  lemma ShortNatToString(n: nat)
    requires n < 100
    ensures |NatToString(n)| <= 2
  {
    if n >= 10 {
      assert NatToString(n) == NatToString(n / 10) + [DigitChar(n % 10)];
    }
  }

  /**
   * For a non-negative duration the text is `M:SS`: minutes of at least two
   * digits, a colon, then exactly two digits below 60, and reading the two
   * numbers back gives `M * 60 + S == floor(ms / 1000)`.
   */
  lemma {:induction false} FormatDurationReadsBack(ms: int)
    requires ms >= 0
    ensures var r := FormatDuration(ms);
            && |r| >= 5
            && r[|r| - 3] == ':'
            && AllDigits(r[..|r| - 3]) && AllDigits(r[|r| - 2..])
            && DigitsValue(r[|r| - 2..]) < 60
            && DigitsValue(r[..|r| - 3]) * 60 + DigitsValue(r[|r| - 2..]) == ms / 1000
  {
    var t := ms / 1000;
    var mm := PadStart(NatToString(t / 60), 2, '0');
    var ss := PadStart(NatToString(t % 60), 2, '0');
    DurationFields(ms);
    MinutesSecondsText(FormatDuration(ms), mm, ss, t);
  }

  /** `mm:ss` with two-digit `ss` reads back as `mm * 60 + ss`, which is `t` when the fields are `t`'s minutes and seconds. */
  lemma MinutesSecondsText(r: string, mm: string, ss: string, t: nat)
    requires r == mm + ":" + ss
    requires |mm| >= 2 && AllDigits(mm) && DigitsValue(mm) == t / 60
    requires |ss| == 2 && AllDigits(ss) && DigitsValue(ss) == t % 60
    ensures && |r| >= 5
            && r[|r| - 3] == ':'
            && AllDigits(r[..|r| - 3]) && AllDigits(r[|r| - 2..])
            && DigitsValue(r[|r| - 2..]) < 60
            && DigitsValue(r[..|r| - 3]) * 60 + DigitsValue(r[|r| - 2..]) == t
  {
    ColonSplit(mm, ss);
  }

  /** A non-negative number padded to two places: at least two digits, reading back to the number. */
  lemma PaddedField(n: nat)
    ensures var p := PadStart(NatToString(n), 2, '0');
            && |p| >= 2 && AllDigits(p) && DigitsValue(p) == n
            && (n < 100 ==> |p| == 2)
  {
    NatToStringValue(n);
    PadStartDigits(NatToString(n));
    if n < 100 {
      ShortNatToString(n);
    }
  }

  /** For a non-negative duration both fields are padded non-negative numbers. */
  lemma DurationFields(ms: int)
    requires ms >= 0
    ensures var t := ms / 1000;
            var mm := PadStart(NatToString(t / 60), 2, '0');
            var ss := PadStart(NatToString(t % 60), 2, '0');
            && FormatDuration(ms) == mm + ":" + ss
            && |mm| >= 2 && AllDigits(mm) && DigitsValue(mm) == t / 60
            && |ss| == 2 && AllDigits(ss) && DigitsValue(ss) == t % 60
  {
    var t := ms / 1000;
    PaddedField(t / 60);
    PaddedField(t % 60);
  }

  /** The two sides of `a + ":" + b` when `b` has two characters. */
  lemma ColonSplit(a: string, b: string)
    requires |b| == 2
    ensures var r := a + ":" + b;
            && |r| == |a| + 3 && r[|r| - 3] == ':' && r[..|r| - 3] == a && r[|r| - 2..] == b
  {
    var r := a + ":" + b;
    assert r[..|r| - 3] == a;
    assert r[|r| - 2..] == b;
  }

  // ---------------------------------------------------------------------------
  // escapeCsvField
  // ---------------------------------------------------------------------------

  predicate IsCsvSpecial(c: char)
  {
    c == '"' || c == ',' || c == '\n' || c == '\r'
  }

  predicate NeedsQuoting(s: string)
  {
    exists i :: 0 <= i < |s| && IsCsvSpecial(s[i])
  }

  /** `s.replace(/"/g, '""')` */
  function DoubleQuotes(s: string): string
  {
    DoubleQuotesFrom(s, 0)
  }

  /** `DoubleQuotes` of the characters of `s` from index `i` on. */
  function DoubleQuotesFrom(s: string, i: nat): string
    decreases |s| - i
  {
    if i >= |s| then "" else (if s[i] == '"' then "\"\"" else [s[i]]) + DoubleQuotesFrom(s, i + 1)
  }

  /** A reader's inverse of `DoubleQuotes`: every `""` becomes `"`. */
  function UndoubleQuotes(s: string): string
  {
    if |s| == 0 then ""
    else if |s| >= 2 && s[0] == '"' && s[1] == '"' then "\"" + UndoubleQuotes(s[2..])
    else [s[0]] + UndoubleQuotes(s[1..])
  }

  /** `escapeCsvField`: `null`/`undefined` give `""`; a field holding a special character is quoted. */
  function EscapeCsvField(field: Nullable<string>): (r: string)
    ensures !field.Given? ==> r == ""
    ensures field.Given? && NeedsQuoting(field.value) ==> |r| >= 2 && r[0] == '"' && r[|r| - 1] == '"'
    ensures field.Given? && !NeedsQuoting(field.value) ==> r == field.value
  {
    if !field.Given? then ""
    else if NeedsQuoting(field.value) then "\"" + DoubleQuotes(field.value) + "\""
    else field.value
  }

  /** A reader of one field: strip the enclosing quotes and un-double the inner ones. */
  function UnescapeCsvField(r: string): string
  {
    if |r| >= 2 && r[0] == '"' && r[|r| - 1] == '"' then UndoubleQuotes(r[1..|r| - 1]) else r
  }

  lemma UndoubleDoubleQuotes(s: string)
    ensures UndoubleQuotes(DoubleQuotes(s)) == s
  {
    UndoubleDoubleQuotesFrom(s, 0);
  }

  lemma {:induction false} UndoubleDoubleQuotesFrom(s: string, i: nat)
    requires i <= |s|
    ensures UndoubleQuotes(DoubleQuotesFrom(s, i)) == s[i..]
    decreases |s| - i
  {
    if i < |s| {
      UndoubleDoubleQuotesFrom(s, i + 1);
      var rest := DoubleQuotesFrom(s, i + 1);
      if s[i] == '"' {
        assert DoubleQuotesFrom(s, i) == "\"\"" + rest;
        assert ("\"\"" + rest)[2..] == rest;
      } else {
        assert DoubleQuotesFrom(s, i) == [s[i]] + rest;
        assert ([s[i]] + rest)[1..] == rest;
      }
      assert s[i..] == [s[i]] + s[i + 1..];
    }
  }

  /** Reading back an escaped field recovers the field. */
  lemma {:induction false} CsvFieldRoundTrip(s: string)
    ensures UnescapeCsvField(EscapeCsvField(Given(s))) == s
  {
    var r := EscapeCsvField(Given(s));
    if NeedsQuoting(s) {
      assert r[1..|r| - 1] == DoubleQuotes(s);
      UndoubleDoubleQuotes(s);
    } else if |s| >= 2 && s[0] == '"' {
      assert IsCsvSpecial(s[0]);
    }
  }

  /** A field is quoted exactly when it holds `"`, `,`, `\n` or `\r`; an unquoted field holds none. */
  lemma QuotedIffSpecial(s: string)
    ensures var r := EscapeCsvField(Given(s));
            (|r| > 0 && r[0] == '"') <==> NeedsQuoting(s)
    ensures !NeedsQuoting(s) ==> !NeedsQuoting(EscapeCsvField(Given(s)))
  {
    if !NeedsQuoting(s) && |s| > 0 {
      assert !IsCsvSpecial(s[0]);
    }
  }

  // ---------------------------------------------------------------------------
  // The export record (exam-simulator-app)
  // ---------------------------------------------------------------------------

  datatype ExportQuestion = ExportQuestion(
    id: string,
    questionNumber: nat,
    questionText: string,
    userAnswer: string,
    correctAnswer: string,
    status: string)

  datatype ResultsExport = ResultsExport(
    examTitle: string,
    examDate: string,
    durationFormatted: string,
    durationMs: int,
    score: string,
    questions: seq<ExportQuestion>)

  /** The `score` field: `c/t`, else `'0/0'` when the answer key is on, else `Not Scored`. */
  function AppScoreText(e: Exam, score: Option<Score>): string
  {
    if score.Some? then NatToString(score.value.correct) + "/" + NatToString(score.value.total)
    else if ScoringEnabled(e) then "0/0"
    else "Not Scored"
  }

  /** One entry of `exam.questions.map(...)`. */
  function ExportQuestionOf(e: Exam, answers: Answers, q: Question, index: nat): ExportQuestion
  {
    var primary := PrimaryLang(e);
    var user := ResolveByKey(AnswerFor(answers, q), primary, SecondaryLang(e));
    ExportQuestion(
      Key(q.id),
      index + 1,
      ResolveByKey(Given(q.question), primary, Undefined),
      if user != "" then user else "Not Answered",
      if ScoringEnabled(e) && q.answerKey.Given? && TruthyText(q.answerKey.value)
      then ResolveByKey(q.answerKey, primary, Undefined) else NotAvailable,
      StatusText(AppStatus(e, answers, q)))
  }

  /** `resultsExportData`; the date is handed in. */
  function ResultsExportOf(e: Exam, answers: Answers, durationMs: int, examDate: string): ResultsExport
  {
    ResultsExport(
      e.title,
      examDate,
      FormatDuration(durationMs),
      durationMs,
      AppScoreText(e, AppScore(e, answers)),
      seq(|e.questions|, i requires 0 <= i < |e.questions| => ExportQuestionOf(e, answers, e.questions[i], i)))
  }

  /** The score text is `Not Scored` exactly when the answer key is off; the `'0/0'` branch never runs. */
  lemma AppScoreTextCases(e: Exam, answers: Answers)
    ensures var text := AppScoreText(e, AppScore(e, answers));
            && (text == "Not Scored" <==> !ScoringEnabled(e))
            && (ScoringEnabled(e) ==>
                  text == NatToString(AppScore(e, answers).value.correct) + "/" + NatToString(AppScore(e, answers).value.total))
  {
    if ScoringEnabled(e) {
      var s := AppScore(e, answers).value;
      var text := NatToString(s.correct) + "/" + NatToString(s.total);
      assert text[0] == NatToString(s.correct)[0];
      assert IsDigit(text[0]);
    }
  }

  /**
   * What each exported question says: its number is its position plus one, a
   * question without an entry reads "N/A" (the resolver's sentinel, so "Not
   * Answered" appears only for an empty resolution) with status Not Answered,
   * and the correct answer is "N/A" whenever scoring is off.
   */
  lemma ExportQuestionFacts(e: Exam, answers: Answers, durationMs: int, examDate: string, i: nat)
    requires i < |e.questions|
    ensures var d := ResultsExportOf(e, answers, durationMs, examDate);
            var q := e.questions[i];
            && |d.questions| == |e.questions|
            && d.questions[i].questionNumber == i + 1
            && d.questions[i].id == Key(q.id)
            && d.questions[i].userAnswer != ""
            && (Key(q.id) !in answers ==> d.questions[i].userAnswer == NotAvailable && d.questions[i].status == "Not Answered")
            && (!ScoringEnabled(e) ==> d.questions[i].correctAnswer == NotAvailable)
            && d.questions[i].status == StatusText(AppStatus(e, answers, q))
  {
  }

  // ---------------------------------------------------------------------------
  // convertResultsToCsv
  // ---------------------------------------------------------------------------

  const CsvHeader: seq<string> := ["Question No.", "Question Text", "User Answer", "Correct Answer", "Status"]

  function Esc(s: string): string
  {
    EscapeCsvField(Given(s))
  }

  function QuestionRow(q: ExportQuestion): seq<string>
  {
    [Esc(NatToString(q.questionNumber)), Esc(q.questionText), Esc(q.userAnswer), Esc(q.correctAnswer), Esc(q.status)]
  }

  /** `headers.map(escapeCsvField)` */
  function HeaderRow(): seq<string>
  {
    seq(|CsvHeader|, i requires 0 <= i < |CsvHeader| => Esc(CsvHeader[i]))
  }

  /** A `label, value` row. */
  function LabelRow(name: string, value: string): seq<string>
  {
    [Esc(name), Esc(value)]
  }

  /** The four label rows, the empty row and the header row. */
  function LeadingRows(d: ResultsExport): seq<seq<string>>
  {
    [ LabelRow("Exam Title:", d.examTitle),
      LabelRow("Exam Date:", d.examDate),
      LabelRow("Duration:", d.durationFormatted),
      LabelRow("Score:", d.score),
      [],
      HeaderRow() ]
  }

  function QuestionRows(qs: seq<ExportQuestion>): seq<seq<string>>
  {
    seq(|qs|, i requires 0 <= i < |qs| => QuestionRow(qs[i]))
  }

  function CsvRows(d: ResultsExport): seq<seq<string>>
  {
    LeadingRows(d) + QuestionRows(d.questions)
  }

  /** `rowArray.join(',')` for every row. */
  function Lines(rows: seq<seq<string>>): seq<string>
  {
    seq(|rows|, i requires 0 <= i < |rows| => Join(rows[i], ","))
  }

  /** Fields joined by `,`, rows by `\n`. */
  function CsvText(rows: seq<seq<string>>): string
  {
    Join(Lines(rows), "\n")
  }

  /** The `forEach` that pushes one escaped row per question after `rows`. */
  method AppendQuestionRows(rows: seq<seq<string>>, qs: seq<ExportQuestion>) returns (r: seq<seq<string>>)
    ensures r == rows + QuestionRows(qs)
  {
    r := rows;
    for i := 0 to |qs|
      invariant r == rows + QuestionRows(qs[..i])
    {
      var q := qs[i];
      r := r + [[Esc(NatToString(q.questionNumber)), Esc(q.questionText), Esc(q.userAnswer),
                 Esc(q.correctAnswer), Esc(q.status)]];
      assert QuestionRows(qs[..i + 1]) == QuestionRows(qs[..i]) + [QuestionRow(q)];
    }
    assert qs[..|qs|] == qs;
  }

  /** The six `push` calls before the question loop. */
  method PushLeadingRows(d: ResultsExport) returns (csvRows: seq<seq<string>>)
    ensures csvRows == LeadingRows(d)
  {
    LabelsEscapeToThemselves();
    var titleRow := LabelRow("Exam Title:", d.examTitle);
    var dateRow := LabelRow("Exam Date:", d.examDate);
    var durationRow := LabelRow("Duration:", d.durationFormatted);
    var scoreRow := LabelRow("Score:", d.score);
    var headerRow := HeaderRow();
    csvRows := [];
    csvRows := csvRows + [titleRow];
    csvRows := csvRows + [dateRow];
    csvRows := csvRows + [durationRow];
    csvRows := csvRows + [scoreRow];
    csvRows := csvRows + [[]];
    csvRows := csvRows + [headerRow];
    assert csvRows == [titleRow, dateRow, durationRow, scoreRow, [], headerRow];
  }

  /** `convertResultsToCsv`: the leading rows, then the question rows, as CSV text. */
  method ConvertResultsToCsv(d: ResultsExport) returns (csv: string)
    ensures csv == CsvText(CsvRows(d))
  {
    var csvRows := PushLeadingRows(d);
    csvRows := AppendQuestionRows(csvRows, d.questions);
    csv := Join(Lines(csvRows), "\n");
  }

  /** No character of `s` makes `escapeCsvField` quote it. */
  predicate Unquoted(s: string)
  {
    forall k :: 0 <= k < |s| ==> !IsCsvSpecial(s[k])
  }

  lemma UnquotedText(s: string)
    requires Unquoted(s)
    ensures Esc(s) == s
  {
  }

  /** Each label escapes to itself. */
  lemma LabelsEscapeToThemselves()
    ensures Esc("Exam Title:") == "Exam Title:"
    ensures Esc("Exam Date:") == "Exam Date:"
    ensures Esc("Duration:") == "Duration:"
    ensures Esc("Score:") == "Score:"
  {
    FixedTextsUnquoted();
    UnquotedText("Exam Title:");
    UnquotedText("Exam Date:");
    UnquotedText("Duration:");
    UnquotedText("Score:");
  }

  /** No label or header text needs quoting. */
  lemma FixedTextsUnquoted()
    ensures Unquoted("Exam Title:")
    ensures Unquoted("Exam Date:")
    ensures Unquoted("Duration:")
    ensures Unquoted("Score:")
    ensures forall i :: 0 <= i < |CsvHeader| ==> Esc(CsvHeader[i]) == CsvHeader[i]
  {
    LabelTextsUnquoted();
    HeaderTextsUnquoted();
  }

  lemma LabelTextsUnquoted()
    ensures Unquoted("Exam Title:") && Unquoted("Exam Date:") && Unquoted("Duration:") && Unquoted("Score:")
  {
    UnquotedText("Exam Title:");
    UnquotedText("Exam Date:");
    UnquotedText("Duration:");
    UnquotedText("Score:");
  }

  lemma HeaderTextsUnquoted()
    ensures forall i :: 0 <= i < |CsvHeader| ==> Esc(CsvHeader[i]) == CsvHeader[i]
  {
    UnquotedText("Question No.");
    UnquotedText("Question Text");
    UnquotedText("User Answer");
    UnquotedText("Correct Answer");
    UnquotedText("Status");
  }

  /** A label row: the label needs no quoting and the value reads back. */
  lemma LabelRowLayout(name: string, value: string)
    requires Unquoted(name)
    ensures var row := [Esc(name), Esc(value)];
            |row| == 2 && row[0] == name && UnescapeCsvField(row[1]) == value
  {
    UnquotedText(name);
    CsvFieldRoundTrip(value);
  }

  /** The escaped header row is the header itself. */
  lemma HeaderRowLayout()
    ensures HeaderRow() == CsvHeader
  {
    FixedTextsUnquoted();
    var header := HeaderRow();
    assert forall i :: 0 <= i < |CsvHeader| ==> header[i] == CsvHeader[i];
  }

  /** The label rows read back to the record's values; the empty row and the header follow. */
  lemma LeadingRowsLayout(d: ResultsExport)
    ensures var rows := LeadingRows(d);
            && |rows| == 6
            && |rows[0]| == 2 && rows[0][0] == "Exam Title:" && UnescapeCsvField(rows[0][1]) == d.examTitle
            && |rows[1]| == 2 && rows[1][0] == "Exam Date:" && UnescapeCsvField(rows[1][1]) == d.examDate
            && |rows[2]| == 2 && rows[2][0] == "Duration:" && UnescapeCsvField(rows[2][1]) == d.durationFormatted
            && |rows[3]| == 2 && rows[3][0] == "Score:" && UnescapeCsvField(rows[3][1]) == d.score
            && rows[4] == []
            && rows[5] == CsvHeader
  {
    var rows := LeadingRows(d);
    FixedTextsUnquoted();
    assert rows[0] == LabelRow("Exam Title:", d.examTitle);
    LabelRowLayout("Exam Title:", d.examTitle);
    assert rows[1] == LabelRow("Exam Date:", d.examDate);
    LabelRowLayout("Exam Date:", d.examDate);
    assert rows[2] == LabelRow("Duration:", d.durationFormatted);
    LabelRowLayout("Duration:", d.durationFormatted);
    assert rows[3] == LabelRow("Score:", d.score);
    LabelRowLayout("Score:", d.score);
    HeaderRowLayout();
  }

  /** A question row has five fields, the number unquoted, each field reading back to the record's value. */
  lemma QuestionRowLayout(q: ExportQuestion)
    ensures var row := QuestionRow(q);
            && |row| == 5
            && row[0] == NatToString(q.questionNumber)
            && UnescapeCsvField(row[1]) == q.questionText
            && UnescapeCsvField(row[2]) == q.userAnswer
            && UnescapeCsvField(row[3]) == q.correctAnswer
            && UnescapeCsvField(row[4]) == q.status
  {
    var row := QuestionRow(q);
    assert row[0] == Esc(NatToString(q.questionNumber)) && row[1] == Esc(q.questionText) && row[2] == Esc(q.userAnswer);
    assert row[3] == Esc(q.correctAnswer) && row[4] == Esc(q.status);
    NumbersUnquoted(q.questionNumber);
    CsvFieldRoundTrip(q.questionText);
    CsvFieldRoundTrip(q.userAnswer);
    CsvFieldRoundTrip(q.correctAnswer);
    CsvFieldRoundTrip(q.status);
  }

  /** The whole CSV starts with the six leading rows. */
  lemma CsvLeadingRows(d: ResultsExport)
    ensures var rows := CsvRows(d);
            && |rows| == 6 + |d.questions|
            && |rows[0]| == 2 && rows[0][0] == "Exam Title:" && UnescapeCsvField(rows[0][1]) == d.examTitle
            && |rows[1]| == 2 && rows[1][0] == "Exam Date:" && UnescapeCsvField(rows[1][1]) == d.examDate
            && |rows[2]| == 2 && rows[2][0] == "Duration:" && UnescapeCsvField(rows[2][1]) == d.durationFormatted
            && |rows[3]| == 2 && rows[3][0] == "Score:" && UnescapeCsvField(rows[3][1]) == d.score
            && rows[4] == []
            && rows[5] == CsvHeader
  {
    var rows := CsvRows(d);
    var lead := LeadingRows(d);
    LeadingRowsLayout(d);
    assert rows[0] == lead[0] && rows[1] == lead[1] && rows[2] == lead[2];
    assert rows[3] == lead[3] && rows[4] == lead[4] && rows[5] == lead[5];
  }

  /** Question i's row has five fields reading back to its record's values. */
  lemma QuestionRowsLayout(qs: seq<ExportQuestion>)
    ensures var rows := QuestionRows(qs);
            forall i :: 0 <= i < |qs| ==>
              && |rows[i]| == 5
              && rows[i][0] == NatToString(qs[i].questionNumber)
              && UnescapeCsvField(rows[i][1]) == qs[i].questionText
              && UnescapeCsvField(rows[i][2]) == qs[i].userAnswer
              && UnescapeCsvField(rows[i][3]) == qs[i].correctAnswer
              && UnescapeCsvField(rows[i][4]) == qs[i].status
  {
    forall i | 0 <= i < |qs| {
      QuestionRowLayout(qs[i]);
    }
  }

  /** The rows after the six leading ones are the question rows. */
  lemma CsvRowsSplit(d: ResultsExport)
    ensures |CsvRows(d)| == 6 + |d.questions|
    ensures forall i :: 0 <= i < |d.questions| ==> CsvRows(d)[6 + i] == QuestionRows(d.questions)[i]
  {
    assert |LeadingRows(d)| == 6;
  }

  /**
   * The row layout: four two-field label rows, an empty row, the header, then
   * one five-field row per question in exam order, numbered by position, each
   * field reading back to the record's value.
   */
  lemma CsvLayout(d: ResultsExport)
    ensures var rows := CsvRows(d);
            && |rows| == 6 + |d.questions|
            && |rows[0]| == 2 && rows[0][0] == "Exam Title:" && UnescapeCsvField(rows[0][1]) == d.examTitle
            && |rows[1]| == 2 && rows[1][0] == "Exam Date:" && UnescapeCsvField(rows[1][1]) == d.examDate
            && |rows[2]| == 2 && rows[2][0] == "Duration:" && UnescapeCsvField(rows[2][1]) == d.durationFormatted
            && |rows[3]| == 2 && rows[3][0] == "Score:" && UnescapeCsvField(rows[3][1]) == d.score
            && rows[4] == []
            && rows[5] == CsvHeader
            && forall i :: 0 <= i < |d.questions| ==>
                 && |rows[6 + i]| == 5
                 && rows[6 + i][0] == NatToString(d.questions[i].questionNumber)
                 && UnescapeCsvField(rows[6 + i][1]) == d.questions[i].questionText
                 && UnescapeCsvField(rows[6 + i][2]) == d.questions[i].userAnswer
                 && UnescapeCsvField(rows[6 + i][3]) == d.questions[i].correctAnswer
                 && UnescapeCsvField(rows[6 + i][4]) == d.questions[i].status
  {
    CsvLeadingRows(d);
    CsvRowsSplit(d);
    QuestionRowsLayout(d.questions);
  }

  lemma NumbersUnquoted(n: nat)
    ensures Esc(NatToString(n)) == NatToString(n)
  {
    var s := NatToString(n);
    forall k | 0 <= k < |s| ensures !IsCsvSpecial(s[k]) {
      assert IsDigit(s[k]);
    }
    UnquotedText(s);
  }

  // ---------------------------------------------------------------------------
  // File title and name
  // ---------------------------------------------------------------------------

  /** Regex `\s`, restricted to ASCII. */
  predicate IsSpace(c: char)
  {
    c == ' ' || c == '\t' || c == '\n' || c == '\r' || c == '\U{000B}' || c == '\U{000C}'
  }

  /** The two character classes the sanitisers keep: src `[A-Za-z0-9_]`, app `[A-Za-z0-9_.-]`. */
  datatype TitleCharset = WordChars | WordDotDash

  predicate Allowed(c: char, cs: TitleCharset)
  {
    || 'a' <= c <= 'z' || 'A' <= c <= 'Z' || '0' <= c <= '9' || c == '_'
    || (cs == WordDotDash && (c == '.' || c == '-'))
  }

  /** What is left of `s` after its leading whitespace run. */
  function SkipSpaces(s: string): (r: string)
    ensures |r| <= |s|
    ensures r == [] || !IsSpace(r[0])
  {
    if |s| > 0 && IsSpace(s[0]) then SkipSpaces(s[1..]) else s
  }

  /** `s.replace(/\s+/g, '_')`: each maximal run of whitespace becomes one `_`. */
  function UnderscoreSpaceRuns(s: string): (r: string)
    ensures forall i :: 0 <= i < |r| ==> !IsSpace(r[i])
    decreases |s|
  {
    if |s| == 0 then ""
    else if IsSpace(s[0]) then "_" + UnderscoreSpaceRuns(SkipSpaces(s[1..]))
    else [s[0]] + UnderscoreSpaceRuns(s[1..])
  }

  /** `s.replace(/[^...]/g, '')`: drop every character outside the class. */
  function KeepAllowed(s: string, cs: TitleCharset): (r: string)
    ensures |r| <= |s|
    ensures forall i :: 0 <= i < |r| ==> Allowed(r[i], cs)
    ensures forall c :: Allowed(c, cs) ==> multiset(r)[c] == multiset(s)[c]
  {
    if |s| == 0 then ""
    else
      assert s == [s[0]] + s[1..];
      assert multiset(s) == multiset([s[0]]) + multiset(s[1..]);
      if Allowed(s[0], cs) then [s[0]] + KeepAllowed(s[1..], cs)
      else KeepAllowed(s[1..], cs)
  }

  function SafeTitle(title: string, cs: TitleCharset): (r: string)
    ensures forall i :: 0 <= i < |r| ==> Allowed(r[i], cs)
  {
    KeepAllowed(UnderscoreSpaceRuns(title), cs)
  }

  lemma {:induction false} KeepAllowedUnchanged(s: string, cs: TitleCharset)
    requires forall i :: 0 <= i < |s| ==> Allowed(s[i], cs)
    ensures KeepAllowed(s, cs) == s
  {
    if |s| > 0 {
      KeepAllowedUnchanged(s[1..], cs);
      assert s == [s[0]] + s[1..];
    }
  }

  lemma {:induction false} UnderscoreSpaceRunsUnchanged(s: string)
    requires forall i :: 0 <= i < |s| ==> !IsSpace(s[i])
    ensures UnderscoreSpaceRuns(s) == s
  {
    if |s| > 0 {
      UnderscoreSpaceRunsUnchanged(s[1..]);
      assert s == [s[0]] + s[1..];
    }
  }

  /** Dropping characters works piece by piece: the kept characters keep their order. */
  lemma {:induction false} KeepAllowedAppend(a: string, b: string, cs: TitleCharset)
    ensures KeepAllowed(a + b, cs) == KeepAllowed(a, cs) + KeepAllowed(b, cs)
  {
    if |a| == 0 {
      assert a + b == b;
    } else {
      TailOfAppend(a, b);
      KeepAllowedCons(a, cs);
      KeepAllowedCons(a + b, cs);
      KeepAllowedAppend(a[1..], b, cs);
      AppendAssoc(if Allowed(a[0], cs) then [a[0]] else "", KeepAllowed(a[1..], cs), KeepAllowed(b, cs));
    }
  }

  lemma KeepAllowedCons(s: string, cs: TitleCharset)
    requires |s| > 0
    ensures KeepAllowed(s, cs) == (if Allowed(s[0], cs) then [s[0]] else "") + KeepAllowed(s[1..], cs)
  {
  }

  /** One character is kept exactly when it is in the class. */
  lemma KeepAllowedChar(c: char, cs: TitleCharset)
    ensures KeepAllowed([c], cs) == if Allowed(c, cs) then [c] else ""
  {
  }

  predicate AllSpace(w: string)
  {
    forall i :: 0 <= i < |w| ==> IsSpace(w[i])
  }

  /** A non-empty piece ending in a non-space character. */
  predicate EndsInNonSpace(a: string)
  {
    |a| > 0 && !IsSpace(a[|a| - 1])
  }

  /** A whitespace run followed by a non-space character (or nothing) is skipped whole. */
  lemma {:induction false} SkipSpaceRun(w: string, b: string)
    requires AllSpace(w)
    requires b == [] || !IsSpace(b[0])
    ensures SkipSpaces(w + b) == b
  {
    if |w| > 0 {
      assert (w + b)[1..] == w[1..] + b;
      SkipSpaceRun(w[1..], b);
    } else {
      assert w + b == b;
    }
  }

  /** Skipping leading whitespace stops inside a piece that ends in a non-space character. */
  lemma {:induction false} SkipSpacesAppend(a: string, rest: string)
    requires EndsInNonSpace(a)
    ensures SkipSpaces(a + rest) == SkipSpaces(a) + rest
    ensures EndsInNonSpace(SkipSpaces(a))
  {
    if IsSpace(a[0]) {
      assert (a + rest)[1..] == a[1..] + rest;
      SkipSpacesAppend(a[1..], rest);
    }
  }

  /** No whitespace run crosses the end of a piece that ends in a non-space character. */
  lemma {:induction false} UnderscoreSpaceRunsAppend(a: string, rest: string)
    requires a == [] || EndsInNonSpace(a)
    ensures UnderscoreSpaceRuns(a + rest) == UnderscoreSpaceRuns(a) + UnderscoreSpaceRuns(rest)
    decreases |a|
  {
    if |a| == 0 {
      assert a + rest == rest;
    } else if IsSpace(a[0]) {
      TailOfAppend(a, rest);
      SkipSpacesAppend(a[1..], rest);
      var t := SkipSpaces(a[1..]);
      UnderscoreSpaceRunsAppend(t, rest);
      AppendAssoc("_", UnderscoreSpaceRuns(t), UnderscoreSpaceRuns(rest));
    } else {
      TailOfAppend(a, rest);
      UnderscoreSpaceRunsAppend(a[1..], rest);
      AppendAssoc([a[0]], UnderscoreSpaceRuns(a[1..]), UnderscoreSpaceRuns(rest));
    }
  }

  lemma TailOfAppend(w: string, b: string)
    requires |w| > 0
    ensures (w + b)[0] == w[0] && (w + b)[1..] == w[1..] + b
  {
  }

  /**
   * A maximal whitespace run becomes one `_`: with `a` empty or ending in a
   * non-space character, `w` a non-empty whitespace run, and `b` empty or
   * starting with a non-space character, the pieces around the run are
   * rewritten on their own.
   */
  lemma UnderscoreSpaceRunsSplit(a: string, w: string, b: string)
    requires a == [] || EndsInNonSpace(a)
    requires |w| > 0 && AllSpace(w)
    requires b == [] || !IsSpace(b[0])
    ensures UnderscoreSpaceRuns(a + w + b) == UnderscoreSpaceRuns(a) + "_" + UnderscoreSpaceRuns(b)
  {
    AppendAssoc(a, w, b);
    UnderscoreSpaceRunsAppend(a, w + b);
    SpaceRunThenRest(w, b);
    AppendAssoc(UnderscoreSpaceRuns(a), "_", UnderscoreSpaceRuns(b));
  }

  lemma AppendAssoc(x: string, y: string, z: string)
    ensures x + y + z == x + (y + z)
  {
  }

  /** A whitespace run at the front becomes one `_` before the rest. */
  lemma SpaceRunThenRest(w: string, b: string)
    requires |w| > 0 && AllSpace(w)
    requires b == [] || !IsSpace(b[0])
    ensures UnderscoreSpaceRuns(w + b) == "_" + UnderscoreSpaceRuns(b)
  {
    TailOfAppend(w, b);
    SkipSpaceRun(w[1..], b);
  }

  /**
   * The whole title rewrite: around a maximal whitespace run the title
   * becomes the sanitised pieces joined by one `_`, in both copies' classes.
   */
  lemma SafeTitleSplit(a: string, w: string, b: string, cs: TitleCharset)
    requires a == [] || EndsInNonSpace(a)
    requires |w| > 0 && AllSpace(w)
    requires b == [] || !IsSpace(b[0])
    ensures SafeTitle(a + w + b, cs) == SafeTitle(a, cs) + "_" + SafeTitle(b, cs)
  {
    UnderscoreSpaceRunsSplit(a, w, b);
    KeepAllowedAppend(UnderscoreSpaceRuns(a) + "_", UnderscoreSpaceRuns(b), cs);
    KeepAllowedAppend(UnderscoreSpaceRuns(a), "_", cs);
    KeepAllowedChar('_', cs);
  }

  /** A title without whitespace only loses its characters outside the class. */
  lemma SafeTitleWithoutSpaces(title: string, cs: TitleCharset)
    requires forall i :: 0 <= i < |title| ==> !IsSpace(title[i])
    ensures SafeTitle(title, cs) == KeepAllowed(title, cs)
  {
    UnderscoreSpaceRunsUnchanged(title);
  }

  /** Sanitising a sanitised title changes nothing. */
  lemma SafeTitleIdempotent(title: string, cs: TitleCharset)
    ensures SafeTitle(SafeTitle(title, cs), cs) == SafeTitle(title, cs)
  {
    var r := SafeTitle(title, cs);
    UnderscoreSpaceRunsUnchanged(r);
    KeepAllowedUnchanged(r, cs);
  }

  lemma {:induction false} KeepNarrowerClass(s: string)
    ensures KeepAllowed(KeepAllowed(s, WordDotDash), WordChars) == KeepAllowed(s, WordChars)
  {
    if |s| > 0 {
      KeepNarrowerClass(s[1..]);
    }
  }

  /** The src title is the app title with its dots and hyphens dropped. */
  lemma SrcTitleFiltersAppTitle(title: string)
    ensures SafeTitle(title, WordChars) == KeepAllowed(SafeTitle(title, WordDotDash), WordChars)
  {
    KeepNarrowerClass(UnderscoreSpaceRuns(title));
  }

  /** `iso.split('T')[0]`: everything before the first `T`. */
  function DatePart(iso: string): (r: string)
    ensures StartsWith(iso, r)
    ensures forall i :: 0 <= i < |r| ==> r[i] != 'T'
    ensures |r| < |iso| ==> iso[|r|] == 'T'
  {
    if |iso| == 0 || iso[0] == 'T' then "" else [iso[0]] + DatePart(iso[1..])
  }

  /**
   * `${safeExamTitle}_results_${dateSuffix}.${ext}`: a title part made of
   * class characters only, the literal `_results_`, the ISO date up to its
   * `T`, and the extension after a dot.
   */
  function ResultsFileName(title: string, cs: TitleCharset, iso: string, ext: string): (r: string)
    ensures FileNameLayout(r, SafeTitle(title, cs), cs, iso, ext)
  {
    FileNameParts(SafeTitle(title, cs), DatePart(iso), cs, iso, ext);
    SafeTitle(title, cs) + "_results_" + DatePart(iso) + "." + ext
  }

  /**
   * The name `r` starts with the title part `t`, made of class characters,
   * then `_results_`, then the date part of `iso` (a prefix without `T` that
   * stops at the first `T`), then a dot and the extension.
   */
  predicate FileNameLayout(r: string, t: string, cs: TitleCharset, iso: string, ext: string)
  {
    var n, d := |t|, |r| - |ext| - 1;
    && n + 9 <= d < |r|
    && r[..n] == t
    && (forall i :: 0 <= i < n ==> Allowed(r[i], cs))
    && r[n..n + 9] == "_results_"
    && StartsWith(iso, r[n + 9..d])
    && (forall i :: n + 9 <= i < d ==> r[i] != 'T')
    && (d - (n + 9) < |iso| ==> iso[d - (n + 9)] == 'T')
    && r[d..] == "." + ext
  }

  /** Where the four parts of a results file name sit, and what each part holds. */
  lemma FileNameParts(t: string, date: string, cs: TitleCharset, iso: string, ext: string)
    requires forall i :: 0 <= i < |t| ==> Allowed(t[i], cs)
    requires StartsWith(iso, date) && forall i :: 0 <= i < |date| ==> date[i] != 'T'
    requires |date| < |iso| ==> iso[|date|] == 'T'
    ensures FileNameLayout(t + "_results_" + date + "." + ext, t, cs, iso, ext)
  {
    var r := t + "_results_" + date + "." + ext;
    var n, d := |t|, |r| - |ext| - 1;
    assert r == t + ("_results_" + (date + ("." + ext)));
    assert r[..n] == t && r[n..n + 9] == "_results_" && r[n + 9..d] == date && r[d..] == "." + ext;
    assert forall i :: 0 <= i < n ==> r[i] == t[i];
    assert forall i :: n + 9 <= i < d ==> r[i] == date[i - (n + 9)];
  }

  /** The date part of a timestamp is everything before its first `T`. */
  lemma {:induction false} DatePartBeforeT(date: string, rest: string)
    requires forall i :: 0 <= i < |date| ==> date[i] != 'T'
    requires rest != [] && rest[0] == 'T'
    ensures DatePart(date + rest) == date
  {
    if |date| == 0 {
      assert date + rest == rest;
    } else {
      assert (date + rest)[0] == date[0] && (date + rest)[1..] == date[1..] + rest;
      DatePartBeforeT(date[1..], rest);
      assert date == [date[0]] + date[1..];
    }
  }

  // ---------------------------------------------------------------------------
  // JSON export (src)
  // ---------------------------------------------------------------------------

  /** `userAnswerValue !== undefined ? userAnswerValue : null` */
  function AnswerJson(a: Nullable<LangText>): Json
  {
    if a.Given? then TextJson(a.value) else JNull
  }

  const AnswerMember := "userProvidedAnswer"

  /** The `score` of `resultSummary`: `c/t` or `Not Scored`. */
  function SrcScoreText(score: Option<Score>): (r: string)
    ensures r == "Not Scored" <==> score.None?
  {
    if score.Some? then
      var text := NatToString(score.value.correct) + "/" + NatToString(score.value.total);
      assert IsDigit(text[0]);
      text
    else "Not Scored"
  }

  function ResultSummary(score: Option<Score>, durationMs: int, examDate: string): Json
  {
    JObj([ Member("examDate", JStr(examDate)),
           Member("durationFormatted", JStr(FormatDuration(durationMs))),
           Member("durationMs", JNum(durationMs)),
           Member("score", JStr(SrcScoreText(score))) ])
  }

  /** A question of the copy after `q.userProvidedAnswer = ...`; nothing else of it changes. */
  function Annotated(q: Question, answers: Answers): (r: Question)
    ensures r.id == q.id && r.qtype == q.qtype && r.domain == q.domain && r.question == q.question
    ensures r.options == q.options && r.answerKey == q.answerKey && r.explanation == q.explanation
    ensures Get(r.extra, AnswerMember) == Some(AnswerJson(AnswerFor(answers, q)))
    ensures forall k :: k != AnswerMember ==> Get(r.extra, k) == Get(q.extra, k)
  {
    q.(extra := Set(q.extra, AnswerMember, AnswerJson(AnswerFor(answers, q))))
  }

  /**
   * `copy.forEach(item => ...)` over a fresh array copy: each element is
   * replaced, in place and in order, by what the callback makes of it.
   */
  method ForEachInPlace<T>(items: seq<T>, update: T -> T) returns (updated: seq<T>)
    ensures |updated| == |items|
    ensures forall i :: 0 <= i < |items| ==> updated[i] == update(items[i])
  {
    var copy := new T[|items|](i requires 0 <= i < |items| => items[i]);
    for i := 0 to copy.Length
      invariant forall j :: i <= j < copy.Length ==> copy[j] == items[j]
      invariant forall j :: 0 <= j < i ==> copy[j] == update(items[j])
    {
      copy[i] := update(copy[i]);
    }
    updated := copy[..];
  }

  /** The deep copy's questions, each annotated with the answer given to it. */
  method AnnotateQuestions(qs: seq<Question>, answers: Answers) returns (annotated: seq<Question>)
    ensures |annotated| == |qs|
    ensures forall i :: 0 <= i < |qs| ==> annotated[i] == Annotated(qs[i], answers)
  {
    annotated := ForEachInPlace(qs, q => Annotated(q, answers));
  }

  /**
   * `fullExportData`: the annotated copy with `resultSummary` set on it; the
   * exam passed in is a value and stays as it was.
   */
  method ExportResultsJson(e: Exam, answers: Answers, durationMs: int, examDate: string) returns (doc: Exam)
    ensures doc.(questions := e.questions, extra := e.extra) == e
    ensures |doc.questions| == |e.questions|
    ensures forall i :: 0 <= i < |e.questions| ==> doc.questions[i] == Annotated(e.questions[i], answers)
    ensures Get(doc.extra, "resultSummary") == Some(ResultSummary(SrcScore(e, answers), durationMs, examDate))
    ensures forall k :: k != "resultSummary" ==> Get(doc.extra, k) == Get(e.extra, k)
  {
    var questions := AnnotateQuestions(e.questions, answers);
    var score := ComputeSrcScore(e, answers);
    doc := e.(questions := questions, extra := Set(e.extra, "resultSummary", ResultSummary(score, durationMs, examDate)));
  }
}
