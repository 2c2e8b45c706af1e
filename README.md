# TestMe exam engine in Dafny

TestMe is an exam simulator. It has two copies of the screens: the `src` web/mobile copy and the `exam-simulator-app`
copy. A user uploads an exam as a JSON document. The document is checked against a JSON Schema and one business rule,
then stored in a key-value store with a fresh id. The user then takes the exam one question at a time and gets a
score, a status for each question, and an export (JSON or CSV) with a sanitised file name. A mock authentication
provider keeps a user list. Three list screens show all exams, the user's own exams and the public exams, and two of
them can delete.

This project models that engine:

- **Values.**
  - `common.dfy`: `Option`, the `T | null | undefined` slot (`Nullable`), and what a store read yields (`Blob`).
  - `json.dfy`: the parsed JSON tree. Object members are kept in key order.
  - `strings.dfy`: the JavaScript string operations the code relies on.
  - `exams.dfy`: the typed exam record, and the `as Exam` cast of an accepted document.
- **Acceptance.**
  - `exam_schema.dfy`: the schema as predicates. `oneOf` is read literally: exactly one subschema must hold.
  - `upload.dfy`: the upload handler. It covers the error report, the multiple-choice rule with its question
    excerpt, and the append to the stored list.
- **Results.**
  - `lang_text.dfy`: the three behaviourally different `getLangSpecificText` resolvers.
  - `scoring.dfy`: both copies' score `forEach` loops and per-question status functions.
  - `export.dfy`: `formatDuration`, CSV field escaping and row layout, the export record, the title sanitisers and
    file name, and the JSON export that annotates a copy of the exam.
- **State.** Screen state that the handlers update becomes a class.
  - `exam_session.dfy`: the exam-taking cursor and answers.
  - `auth.dfy`: the mock auth provider.
  - `collections.dfy`: the three list screens.
- **Worked examples.** `scenarios.dfy` holds complete attempts, computed on both results screens.

The store, the clock (`Date.now()`, `new Date().toISOString()`) and Ajv's error list are parameters. File pickers,
file reads and `JSON.parse` enter as their outcome.

**Where the code and its own type comments disagree, the model follows the schema code.** The type file
`exam-simulator-app/src/types/exam.ts` (lines 10-11 and 26-27) says an option value or an answer key can be a simple
string or a language map (`OptionValue = string | LangSpecificText`, `answerKey?: OptionValue | null`). But both schema files nest a `minLength: 1` string branch beside
`multilingualTextSchema`, whose string branch accepts any string, inside a `oneOf`. Under draft-07 `oneOf`, as Ajv
applies it, a non-empty plain string therefore matches two branches and is rejected. Only `""` and language maps are
accepted as option values and answer keys. `ExamSchema.OptionValueAccepts`, `ExamSchema.AnswerKeyAccepts`,
`ExamSchema.PlainStringOptionRejectsExam` and `ExamSchema.PlainStringAnswerKeyRejectsExam` state this. The
scoring, status and export models work on the typed record and still handle plain-string keys: stored exams are
typed `Exam` and are not re-validated. The same applies to the two-question exam of `Scenarios.TwoQuestionAttempt`,
whose answer keys are `"42"` and `"a"`: the schema would reject it as an uploaded document, and the scenario scores
the typed exam directly.

## Model

| member | source | states |
|---|---|---|
| ExamSchema.AcceptedExamShape | src/lib/examSchema.ts:136-153 | an accepted document is an object with a string `title` of length at least 1 and a `questions` array of at least one item |
| ExamSchema.QuestionIdAccepts | src/lib/examSchema.ts:157 | a question id is accepted iff it is a non-empty string or a number |
| ExamSchema.MultilingualTextAccepts | src/lib/examSchema.ts:103-114 | a language text is accepted iff it is any string or a language map |
| ExamSchema.LangMapMembers | exam-simulator-app/src/lib/examSchema.ts:5-16 | a language map is accepted iff it has at least one member and every key matches the language-code pattern with a string value; as a language text it is accepted exactly then |
| ExamSchema.LanguageCodeExamples | src/lib/examSchema.ts:108 | `en`, `spa`, `pt-BR`, `zh-HAN` match `^[a-z]{2,3}(-[A-Z]{2,3})?$`; `e`, `engl`, `EN`, `en-us`, `en-B` do not |
| ExamSchema.OptionValueAccepts | src/lib/examSchema.ts:116-121 | an option value is accepted iff it is `""` or a language map; a non-empty string matches two `oneOf` branches |
| ExamSchema.AnswerKeyAccepts | src/lib/examSchema.ts:169-176 | an answer key is accepted iff it is `""`, a language map or `null` |
| ExamSchema.OptionsAccepts | src/lib/examSchema.ts:123-134 | `options` is accepted iff it is a non-empty array of option values, a non-empty language map of non-empty string lists, or `null` |
| ExamSchema.PlainStringOptionRejectsExam | src/lib/examSchema.ts:161-167 | any non-empty plain-string option anywhere makes the whole document invalid |
| ExamSchema.PlainStringAnswerKeyRejectsExam | exam-simulator-app/src/lib/examSchema.ts:71-77 | any non-empty plain-string answer key makes the whole document invalid |
| ExamSchema.AcceptedQuestionTexts | src/lib/examSchema.ts:159-160 | on an accepted question the text is a string (even empty) or a language map, `domain` is a string or `null`, and `explanation` is a language text or `null` |
| ExamSchema.EmptyQuestionTextAccepted | src/lib/examSchema.ts:105 | every string, the empty one included, is a valid question text |
| ExamSchema.LanguageAccepts | src/lib/examSchema.ts:141-149 | `language` is accepted iff it is `null`, or an object with a non-empty string `primary` and a `secondary` that is absent, a non-empty string or `null` |
| ExamSchema.UnknownQuestionMemberAllowed | src/lib/examSchema.ts:186 | adding a member with a key the schema does not name leaves a question's validity unchanged |
| ExamSchema.UnknownExamMemberAllowed | exam-simulator-app/src/lib/examSchema.ts:93 | adding a member with a key the schema does not name leaves the document's validity unchanged |
| Exams.ExamOfAccepted | src/screens/UploadScreen.tsx:380 | the cast of an accepted document keeps its non-empty title and keeps one question per array item, in order |
| Exams.QuestionOfAcceptedOptions | src/screens/UploadScreen.tsx:385-386 | after the cast, options are absent iff the member is absent and `null` iff it is `null`; a given list or map is non-empty; the question is multiple-choice iff `type` is `multiple-choice` |
| Exams.AcceptedLanguage | exam-simulator-app/src/lib/examSchema.ts:43-51 | on an accepted document a present language has a non-empty primary, which is the primary language the screens use, and its secondary is absent, `null` or non-empty |
| Exams.PrimaryLang | src/screens/ResultsScreen.tsx:689 | the primary language is never empty; it is the document's primary when that is non-empty, else `en` |
| Exams.TextFor | src/screens/ResultsScreen.tsx:518 | a present language's text is the text of a member with that key |
| Json.Get | src/screens/UploadScreen.tsx:386 | a lookup yields a value iff the object has that key |
| Json.Set | src/screens/ResultsScreen.tsx:750 | assigning a property makes the lookup of that key yield the value and leaves every other key's lookup unchanged |
| Upload.RootPathLabel | src/screens/UploadScreen.tsx:369 | the root instance path is shown as `Exam data (root)` |
| Upload.QuestionsPathDotted | exam-simulator-app/src/screens/UploadScreen.tsx:95 | a path `/questions` + rest is shown as `questions` + rest with every `/` replaced by `.` |
| Upload.QuestionsPathExample | src/screens/UploadScreen.tsx:370 | `/questions/2/options` is shown as `questions.2.options` |
| Upload.ThirdRewriteIdle | src/screens/UploadScreen.tsx:368-371 | for every instance path that is `""` or starts with `/` and is outside `/questions`, the display path is the root label or the path in dot form; the third rewrite never changes it |
| Upload.SrcRewriteFires | src/screens/UploadScreen.tsx:371 | the src rewrite matches only the literal `questions.A-Za-z0-9_` then `]`s; a path not starting with `/` such as `xquestions/A-Za-z0-9_]/id` reaches it and becomes `questions[id].$2` |
| Upload.AppRewriteFires | exam-simulator-app/src/screens/UploadScreen.tsx:96 | the app rewrite brackets the index on a path that reaches it (`xquestions/2/id` becomes `questions[2].id`) |
| Upload.SrcRewriteExample | src/screens/UploadScreen.tsx:371 | the src rewrite turns `questions.A-Za-z0-9_].id` into `questions[id].$2` |
| Upload.AppRewriteExample | exam-simulator-app/src/screens/UploadScreen.tsx:96 | the app rewrite turns `questions.2.id` into `questions[2].id` |
| Upload.ErrorReportLines | src/screens/UploadScreen.tsx:367-373 | when no path or message holds a line break, splitting the report at `\n` gives one `path: message` line per error, in order |
| Upload.NoBreakInLine | src/screens/UploadScreen.tsx:367-373 | an error line has no line break when neither its path nor its message has one |
| Upload.FormatPathNoBreak | src/screens/UploadScreen.tsx:368-371 | a display path has no line break when its instance path has none |
| Upload.Excerpt | src/screens/UploadScreen.tsx:384 | a plain-string question is quoted verbatim, even `""`; a map question is quoted by its first key's text when that is non-empty and by `Question {i+1}` otherwise, so never by an empty text |
| Upload.FirstViolation | src/screens/UploadScreen.tsx:382-393 | the loop returns nothing iff no multiple-choice question lacks options; otherwise it returns the lowest such index, with that question's excerpt |
| Upload.RuleOnAcceptedDocument | exam-simulator-app/src/screens/UploadScreen.tsx:111-124 | on an accepted document a question breaks the rule iff its `type` is `multiple-choice` and `options` is absent or `null`; the schema already excludes empty arrays and maps |
| Upload.RuleOnAcceptedQuestion | exam-simulator-app/src/screens/UploadScreen.tsx:111-124 | an accepted question item breaks the rule after the cast iff its `type` is `multiple-choice` and `options` is absent or `null` |
| Upload.AcceptDocument | src/screens/UploadScreen.tsx:364-402 | a document the schema rejects gets the error report; an accepted one with a violating question gets the message for the lowest such index; otherwise an unparsable store is a storage error and a readable one gets the exam with the fresh id appended; only success writes |
| Upload.AcceptExam | src/screens/UploadScreen.tsx:380-402 | on the cast exam: a violating question gets the message for the lowest such index; otherwise an unparsable store is a storage error and a readable one gets the exam with the fresh id appended; only success writes |
| Upload.HandleFileUpload | src/screens/UploadScreen.tsx:286-415 | each failure has its own outcome and writes nothing; the question failure names the lowest violating index; a stored list that does not parse is a storage error; success writes the old list (or `[]`) plus the exam with the fresh id, last |
| Upload.UploadAppendsOne | exam-simulator-app/src/screens/UploadScreen.tsx:127-134 | the written list is one longer, keeps every earlier exam in place and ends with the new exam; from an empty store it is just that exam |
| LangTextResolvers.ResolveByKey | exam-simulator-app/src/screens/ResultsScreen.tsx:130-139 | a plain string comes back unchanged; a non-empty map yields one of its texts; `undefined` gives `N/A`; `null` or an empty map gives `Text not available`; the preferred, fallback and first-key steps are stated by `PreferredLanguageWins`, `FallbackLanguageUsed` and `FirstKeyFallback` |
| LangTextResolvers.ResolveTruthy | src/screens/ResultsScreen.tsx:514-524 | a plain string comes back unchanged; a non-empty map yields one of its texts; `undefined`, `null` and an empty map give `N/A`; the preferred, fallback and first-key steps are stated by `PreferredLanguageWins`, `FallbackLanguageUsed` and `FirstKeyFallback` |
| LangTextResolvers.ResolveForSession | src/screens/ExamExecutionScreen.tsx:163-172 | a plain string comes back unchanged; a non-empty map yields one of its texts; an empty map gives `Text not available`; the preferred, fallback and first-key steps are stated by `PreferredLanguageWins`, `FallbackLanguageUsed` and `FirstKeyFallback` |
| LangTextResolvers.PreferredLanguageWins | exam-simulator-app/src/screens/ResultsScreen.tsx:133 | a present preferred key wins for the `in` variant even with an empty text; a non-empty preferred text wins for both truthiness variants |
| LangTextResolvers.FallbackLanguageUsed | exam-simulator-app/src/screens/ResultsScreen.tsx:134 | with a truthy fallback language: when the preferred key is absent and the fallback key is present, the `in` variant gives the fallback's text; when the preferred text is not truthy but the fallback's is, both truthiness variants give the fallback's text, whichever key comes first |
| LangTextResolvers.FirstKeyFallback | src/screens/ResultsScreen.tsx:520-521 | when no entry has the preferred key and the fallback is unset or absent, the `in` variant gives the first key's text; when neither language's text is truthy, both truthiness variants do |
| LangTextResolvers.FallbackToSameLanguage | src/screens/ExamExecutionScreen.tsx:166-167 | naming the preferred language again as the fallback changes no variant's result |
| LangTextResolvers.NonEmptyEntriesFound | src/screens/ResultsScreen.tsx:518 | when every text is non-empty, a key is present iff its text is truthy |
| LangTextResolvers.VariantsAgreeOnNonEmptyTexts | exam-simulator-app/src/screens/ResultsScreen.tsx:130-139 | the three variants agree on plain strings and on non-empty maps whose texts are all non-empty |
| LangTextResolvers.EmptyTextSeparatesVariants | src/screens/ResultsScreen.tsx:518-519 | for `{en: "", es: "Hola"}` with fallback `es`, the `in` variant returns `""` and both truthiness variants return `Hola` |
| LangTextResolvers.TwoLanguageMapExample | src/screens/ResultsScreen.tsx:514-524 | on `{en: "A", es: "B"}`: `es` gives `B`; `fr` with fallback `es` gives the fallback's `B`, not the first key's; `fr` alone gives the first key's `A` |
| Scoring.AnswerFor | exam-simulator-app/src/screens/ResultsScreen.tsx:196 | the answer lookup is never `null`; it yields a value iff the question's key is in the answers, and that value is the answer recorded under the key |
| Scoring.AppCorrectAtMostTotal | exam-simulator-app/src/screens/ResultsScreen.tsx:189-207 | correct is at most total, which is at most the number of questions |
| Scoring.ComputeAppScore | exam-simulator-app/src/screens/ResultsScreen.tsx:189-207 | the counter loop computes the app score; there is no score iff `includeAnswerKey` is not true; then correct ≤ total ≤ number of questions |
| Scoring.AppStatusCases | exam-simulator-app/src/screens/ResultsScreen.tsx:210-227 | Not Answered iff there is no entry; Not Scored iff there is an entry but scoring is off or the key is `undefined`/`null`; otherwise Correct or Incorrect |
| Scoring.SingleLanguageFallbackIdle | exam-simulator-app/src/screens/ResultsScreen.tsx:187 | without a distinct secondary language, the fallback passed by the score resolves exactly as no fallback |
| Scoring.AppScoreAgreesWithStatus | exam-simulator-app/src/screens/ResultsScreen.tsx:197-203 | for a single-language attempt with scoring on, the score counts a question iff its status is Correct and both resolutions are non-empty |
| Scoring.AppScoreAndStatusCanDisagree | exam-simulator-app/src/screens/ResultsScreen.tsx:197-221 | with a secondary language, key `{fr: "X", es: "Y"}` and answer `y`, the score counts the question correct while its status is Incorrect |
| Scoring.SrcCorrectAtMostTotal | src/screens/ResultsScreen.tsx:705-722 | correct is at most total, which is at most the number of questions |
| Scoring.ComputeSrcScore | src/screens/ResultsScreen.tsx:705-722 | the counter loop computes the src score; there is no score iff `includeAnswerKey` is not true; then correct ≤ total ≤ number of questions |
| Scoring.SrcScoreAgreesWithStatus | src/screens/ResultsScreen.tsx:713-738 | with scoring on, the src score counts a question iff its status is Correct |
| Scoring.SrcCorrectCountsCorrectStatuses | src/screens/ResultsScreen.tsx:709-721 | with scoring on, the src `correct` equals the number of questions whose status is Correct |
| Scoring.EmptyKeyScoredOnlyByApp | src/screens/ResultsScreen.tsx:710 | an `""` answer key is scorable for the app copy and not for src |
| Scoring.SrcAnswerNAIsNotAnswered | src/screens/ResultsScreen.tsx:726 | a typed answer that reads `N/A` is Not Answered and never counted correct |
| Export.JsRem | exam-simulator-app/src/screens/ResultsScreen.tsx:144 | JavaScript's truncating `%` agrees with the mathematical remainder on non-negative operands and stays strictly between `-b` and `b` |
| Export.FormatDurationReadsBack | src/screens/ResultsScreen.tsx:526-531 | for ms ≥ 0 the text is minutes (at least two digits), `:`, then two digits below 60, and minutes·60 + seconds = floor(ms/1000) |
| Export.PaddedField | src/screens/ResultsScreen.tsx:530 | a non-negative number padded to two places has at least two digits and reads back to the number; below 100 it has exactly two |
| Export.DurationFields | src/screens/ResultsScreen.tsx:526-531 | for ms ≥ 0 the text is the padded minutes, `:` and the padded seconds of floor(ms/1000) |
| Export.EscapeCsvField | exam-simulator-app/src/screens/ResultsScreen.tsx:229-235 | `null`/`undefined` give `""`; a field needing quotes comes back wrapped in quotes; any other field comes back unchanged |
| Export.CsvFieldRoundTrip | exam-simulator-app/src/screens/ResultsScreen.tsx:231-232 | stripping the outer quotes and un-doubling the inner ones gives back the original field |
| Export.UndoubleDoubleQuotes | exam-simulator-app/src/screens/ResultsScreen.tsx:232 | un-doubling undoes the `"` → `""` replacement |
| Export.QuotedIffSpecial | exam-simulator-app/src/screens/ResultsScreen.tsx:231 | a field is quoted iff it holds `"`, `,`, `\n` or `\r` |
| Export.AppScoreTextCases | exam-simulator-app/src/screens/ResultsScreen.tsx:269 | the score text is `Not Scored` iff scoring is off, else `c/t`; the `'0/0'` branch is unreachable |
| Export.ExportQuestionFacts | exam-simulator-app/src/screens/ResultsScreen.tsx:270-279 | question i is numbered i+1; the user answer is never empty, and a missing answer reads `N/A` with status Not Answered; the correct answer is `N/A` when scoring is off |
| Export.ConvertResultsToCsv | exam-simulator-app/src/screens/ResultsScreen.tsx:237-259 | the row-pushing loop produces exactly the rows of the layout, joined by `,` within a row and `\n` between rows |
| Export.PushLeadingRows | exam-simulator-app/src/screens/ResultsScreen.tsx:240-247 | the six pushes give the leading rows: four escaped label/value pairs, an empty row and the escaped header |
| Export.AppendQuestionRows | exam-simulator-app/src/screens/ResultsScreen.tsx:249-257 | the `forEach` appends one escaped five-field row per question after the rows already there, in exam order |
| Export.LabelsEscapeToThemselves | exam-simulator-app/src/screens/ResultsScreen.tsx:240-243 | each of the four labels escapes to itself |
| Export.FixedTextsUnquoted | exam-simulator-app/src/screens/ResultsScreen.tsx:240-247 | the four labels contain no special character, and every header text escapes to itself |
| Export.LabelRowLayout | exam-simulator-app/src/screens/ResultsScreen.tsx:240-243 | a label row has two fields: the label as written, and a field that reads back to the value |
| Export.HeaderRowLayout | exam-simulator-app/src/screens/ResultsScreen.tsx:246-247 | escaping the header texts gives the header unchanged |
| Export.LeadingRowsLayout | exam-simulator-app/src/screens/ResultsScreen.tsx:240-247 | the six leading rows are title, date, duration and score label rows whose values read back, an empty row and the header |
| Export.QuestionRowLayout | exam-simulator-app/src/screens/ResultsScreen.tsx:249-257 | a question row has five fields: the number unquoted, then fields reading back to the question text, user answer, correct answer and status |
| Export.QuestionRowsLayout | exam-simulator-app/src/screens/ResultsScreen.tsx:249-257 | row i of the question rows has question i's five fields |
| Export.CsvLeadingRows | exam-simulator-app/src/screens/ResultsScreen.tsx:237-247 | the CSV has six rows more than there are questions, and its first six are the leading rows with their fields reading back |
| Export.CsvRowsSplit | exam-simulator-app/src/screens/ResultsScreen.tsx:237-257 | the CSV has six rows more than there are questions, and row 6 + i is question i's row |
| Export.CsvLayout | exam-simulator-app/src/screens/ResultsScreen.tsx:237-259 | 4 label rows, an empty row, the header, then one 5-field row per question in exam order; every field reads back to the record's value |
| Export.UnderscoreSpaceRuns | src/screens/ResultsScreen.tsx:765 | the result contains no whitespace; the run, append and split lemmas below give the rewrite itself |
| Export.KeepAllowed | exam-simulator-app/src/screens/ResultsScreen.tsx:287 | the result keeps only characters of the class, is no longer than the input, and holds every character of the class as often as the input does |
| Export.KeepAllowedAppend | exam-simulator-app/src/screens/ResultsScreen.tsx:287 | filtering a concatenation is concatenating the filtered pieces, so the kept characters stay in their order |
| Export.KeepAllowedChar | src/screens/ResultsScreen.tsx:765 | a single character is kept iff it is in the class |
| Export.SpaceRunThenRest | src/screens/ResultsScreen.tsx:765 | a leading whitespace run followed by a non-space character (or nothing) becomes one `_` |
| Export.UnderscoreSpaceRunsAppend | src/screens/ResultsScreen.tsx:765 | no whitespace run crosses the end of a piece ending in a non-space character: such a piece is rewritten on its own |
| Export.UnderscoreSpaceRunsSplit | src/screens/ResultsScreen.tsx:765 | a maximal whitespace run between two pieces becomes exactly one `_`, and the pieces are rewritten on their own |
| Export.SafeTitleSplit | exam-simulator-app/src/screens/ResultsScreen.tsx:287 | around a maximal whitespace run the sanitised title is the sanitised pieces joined by one `_`, in both classes |
| Export.SafeTitleWithoutSpaces | src/screens/ResultsScreen.tsx:765 | a title without whitespace only loses the characters outside the class |
| Export.SafeTitle | src/screens/ResultsScreen.tsx:765 | a sanitised title contains only characters of its class: `[A-Za-z0-9_]` for src, `[A-Za-z0-9_.-]` for the app; `SafeTitleSplit` and `SafeTitleWithoutSpaces` state the rewrite |
| Export.KeepAllowedUnchanged | exam-simulator-app/src/screens/ResultsScreen.tsx:287 | a string already inside the class is kept unchanged |
| Export.UnderscoreSpaceRunsUnchanged | src/screens/ResultsScreen.tsx:765 | a string without whitespace is kept unchanged |
| Export.SafeTitleIdempotent | exam-simulator-app/src/screens/ResultsScreen.tsx:287 | sanitising twice is sanitising once |
| Export.KeepNarrowerClass | src/screens/ResultsScreen.tsx:765 | filtering to the app class and then the src class equals filtering straight to the src class |
| Export.SrcTitleFiltersAppTitle | src/screens/ResultsScreen.tsx:765 | the src title is the app title with its dots and hyphens dropped |
| Export.DatePart | exam-simulator-app/src/screens/ResultsScreen.tsx:288 | the date suffix is the longest `T`-free prefix of the timestamp |
| Export.DatePartBeforeT | exam-simulator-app/src/screens/ResultsScreen.tsx:288 | a `T`-free date followed by a part starting with `T` splits back to the date |
| Export.ResultsFileName | exam-simulator-app/src/screens/ResultsScreen.tsx:287-296 | the name starts with the sanitised title (class characters only), then the literal `_results_`, then the timestamp's prefix up to its first `T` (with no `T` in it), and ends with `.` followed by the extension |
| Export.FileNameParts | src/screens/ResultsScreen.tsx:765-767 | a title of class characters, `_results_`, a `T`-free date prefix of the timestamp, a dot and an extension sit where the layout says, the title part being exactly the given title |
| Export.SrcScoreText | src/screens/ResultsScreen.tsx:759 | the summary score is `Not Scored` iff there is no score |
| Export.Annotated | src/screens/ResultsScreen.tsx:748-750 | annotating changes only the extra members; `userProvidedAnswer` becomes the raw answer or `null`; every other key is unchanged |
| Export.ForEachInPlace | src/screens/ResultsScreen.tsx:747-751 | the in-place `forEach` keeps the length and replaces every element by the update applied to it |
| Export.AnnotateQuestions | src/screens/ResultsScreen.tsx:746-751 | the copy has as many questions as the exam, each annotated |
| Export.ExportResultsJson | src/screens/ResultsScreen.tsx:746-761 | the export keeps every field of the exam except the questions, which are annotated; it adds `resultSummary` with the src score and leaves every other key unchanged |
| ExamSession.FindExam | src/screens/ExamExecutionScreen.tsx:123 | there is no result iff no exam has the id; otherwise the result is the first exam with it |
| ExamSession.Session.CurrentQuestion | src/screens/ExamExecutionScreen.tsx:161 | under the cursor invariant, a loaded exam with at least one question always has a current question, and a current question is one of the exam's questions |
| ExamSession.Session.LoadExamDetails | src/screens/ExamExecutionScreen.tsx:116-141 | an empty or unreadable store fails; a found exam is loaded with empty answers and a started clock; a miss leaves the exam as it was; the cursor is kept in range when loading on the first question |
| ExamSession.Session.RestoreAnswer | src/screens/ExamExecutionScreen.tsx:143-159 | multiple-choice shows the truthy stored answer as the selection, else none, and clears the text; open-ended shows it as the text, else `''`, and clears the selection; with no current question both are cleared |
| ExamSession.Session.SelectOption | src/screens/ExamExecutionScreen.tsx:174-179 | the option becomes the selection and the current question's answer; every other key and field is unchanged |
| ExamSession.Session.ChangeOpenAnswer | src/screens/ExamExecutionScreen.tsx:181-186 | the text becomes the input value and the current question's answer; every other key and field is unchanged |
| ExamSession.Session.FinishExam | src/screens/ExamExecutionScreen.tsx:203-219 | with an exam and a non-zero start time, the exam, the answers and now − start go to results; otherwise nothing happens |
| ExamSession.Session.NextQuestion | src/screens/ExamExecutionScreen.tsx:188-195 | the index grows by one iff it is below len−1; on the last question the attempt finishes with the index unchanged; the index stays in range |
| ExamSession.Session.PreviousQuestion | src/screens/ExamExecutionScreen.tsx:197-201 | the index shrinks by one iff it is above 0; it stays in range |
| ExamSession.AnswerThenRestore | src/screens/ExamExecutionScreen.tsx:143-186 | after answering and letting the restore effect run, a truthy option stays selected and a non-empty text stays in the input |
| ExamSession.EqualTextsHighlightTogether | src/screens/ExamExecutionScreen.tsx:256-260 | options with equal main texts are highlighted together |
| ExamSession.SelectionHighlights | src/screens/ExamExecutionScreen.tsx:257-259 | a selection highlights itself iff it is truthy, and then highlights another option iff their main texts agree; nothing is highlighted without a selection |
| ExamSession.SameTextDistinctOptions | src/screens/ExamExecutionScreen.tsx:256-260 | the distinct options `{en: "Paris", es: "París"}` and `"Paris"` highlight each other |
| ExamSession.Subtitle | src/screens/ExamExecutionScreen.tsx:228-248 | a subtitle is shown iff the exam is multilingual and its secondary-language text is non-empty and differs from the main text; it is that text; a plain-string question has none |
| Auth.FindByUsername | exam-simulator-app/src/auth/AuthContext.tsx:60 | there is no result iff no user has the name; otherwise it is the first user with it |
| Auth.AppendFresh | exam-simulator-app/src/auth/AuthContext.tsx:83-93 | appending a user under an unused name keeps names unique, and searching for that name then finds the new user |
| Auth.FindStableUnderAppend | exam-simulator-app/src/auth/AuthContext.tsx:60-93 | a name that was found is found, as the same user, after another register appends |
| Auth.AuthState.LoadUserFromStorage | exam-simulator-app/src/auth/AuthContext.tsx:36-53 | a readable saved user becomes the current user; otherwise the current user is unchanged; afterwards `isAuthenticated` holds iff a user was saved or someone was already signed in |
| Auth.AuthState.Login | exam-simulator-app/src/auth/AuthContext.tsx:55-75 | succeeds iff the list is readable and some user has the name, then the first such user signs in and `isAuthenticated` holds; failure changes nothing; the password is ignored; the list never changes |
| Auth.AuthState.Register | exam-simulator-app/src/auth/AuthContext.tsx:77-104 | an unreadable list or a taken name returns false and changes nothing; otherwise `{id, username}` is appended last, signed in with `isAuthenticated` holding; names stay unique |
| Auth.AuthState.Logout | exam-simulator-app/src/auth/AuthContext.tsx:106-116 | nobody is signed in and the saved user is removed |
| Auth.RegisterThenLogin | exam-simulator-app/src/auth/AuthContext.tsx:60-93 | after a successful register, login under the same name succeeds and signs in the new user |
| Collections.Filter | exam-simulator-app/src/screens/ExamListScreen.tsx:127 | the result is no longer than the list and every kept exam meets the criterion |
| Collections.FilterMembers | exam-simulator-app/src/screens/HomeScreen.tsx:92 | an exam is kept iff it is in the list and meets the criterion |
| Collections.FilterIsSubsequence | exam-simulator-app/src/screens/HomeScreen.tsx:91-93 | the kept exams appear in their stored order |
| Collections.FilterKeepsAll | exam-simulator-app/src/screens/ExamListScreen.tsx:127 | when every exam meets the criterion the list is unchanged |
| Collections.FilterIdempotent | exam-simulator-app/src/screens/UserDashboardScreen.tsx:151 | filtering twice by one criterion is filtering once |
| Collections.FiltersCommute | exam-simulator-app/src/screens/UserDashboardScreen.tsx:151-156 | deleting from the owner view equals the owner view of the list after deletion |
| Collections.DeleteRemovesExactly | exam-simulator-app/src/screens/ExamListScreen.tsx:127 | deleting an id removes every exam with that id and no other |
| Collections.ExamList.LoadExams | exam-simulator-app/src/screens/ExamListScreen.tsx:88-104 | the view is the stored list, or `[]` when the key is empty or does not parse |
| Collections.ExamList.DeleteExam | exam-simulator-app/src/screens/ExamListScreen.tsx:125-129 | the view loses exactly that id, in order; the store is written with the new view; an absent id changes nothing |
| Collections.Dashboard.LoadUserExams | exam-simulator-app/src/screens/UserDashboardScreen.tsx:105-124 | without a user nothing changes; otherwise the view is the user's stored exams in order, `[]` for an empty or unparsable key |
| Collections.Dashboard.DeleteExam | exam-simulator-app/src/screens/UserDashboardScreen.tsx:148-163 | the view and the freshly read stored list both lose the id; an empty store is written back as `[]`; an unparsable one triggers a reload; a view that showed the user's exams still does |
| Collections.Home.LoadPublicExams | exam-simulator-app/src/screens/HomeScreen.tsx:86-104 | the view keeps exactly the stored exams with truthy `isPublic`, in stored order, and is `[]` for an empty or unparsable key |
| Scenarios.CapitalCityAttempts | exam-simulator-app/src/screens/ResultsScreen.tsx:189-227 | with key `Paris`, `paris` is correct and ` Paris` is incorrect (case is ignored, spaces are not); no answer is Not Answered and counts in total only, on both screens |
| Scenarios.ScoringOffHasNoScore | src/screens/ResultsScreen.tsx:706 | with `includeAnswerKey` false there is no score (distinct from 0/0) and answers are Not Scored, on both screens |
| Scenarios.TwoQuestionAttempt | src/screens/ResultsScreen.tsx:705-738 | the two-question attempt with answers `{"1": "42", "2": "b"}` scores 1/2, question 1 Correct and question 2 Incorrect, on both screens |
| Scenarios.EmptyOptionsRejected | exam-simulator-app/src/screens/UploadScreen.tsx:111-122 | a multiple-choice question with `options: []` at index 1 is rejected at index 1, quoted by its text |

## Definitions

The rows above name the members whose contracts state each property. The functions and predicates that transcribe
the source, and that those properties are about, are these:

| definition | source | properties about it |
|---|---|---|
| ExamSchema.ValidExam | src/lib/examSchema.ts:136-192 | `AcceptedExamShape`, `PlainStringOptionRejectsExam`, `PlainStringAnswerKeyRejectsExam`, `UnknownExamMemberAllowed` |
| ExamSchema.Question | src/lib/examSchema.ts:154-188 | `QuestionIdAccepts`, `OptionsAccepts`, `AnswerKeyAccepts`, `AcceptedQuestionTexts`, `UnknownQuestionMemberAllowed` |
| ExamSchema.OneOf2 | src/lib/examSchema.ts:103-121 | `MultilingualTextAccepts`, `OptionValueAccepts` |
| ExamSchema.OneOf3 | src/lib/examSchema.ts:162-176 | `OptionsAccepts`, `AnswerKeyAccepts` |
| Exams.ExamOf | src/screens/UploadScreen.tsx:380 | `ExamOfAccepted`, `AcceptedLanguage` |
| Exams.QuestionOf | src/screens/UploadScreen.tsx:380 | `QuestionOfAcceptedOptions`, `ExamOfAccepted` |
| Exams.IsMultilingual | src/screens/ExamExecutionScreen.tsx:228 | `Scoring.SingleLanguageFallbackIdle`, `ExamSession.Subtitle` |
| Exams.ScoringEnabled | src/screens/ResultsScreen.tsx:706 | `Scoring.AppStatusCases`, `Scenarios.ScoringOffHasNoScore` |
| Exams.OwnedBy | exam-simulator-app/src/screens/UserDashboardScreen.tsx:112 | `Collections.FiltersCommute`, `Collections.Dashboard.LoadUserExams` |
| Exams.IsPublic | exam-simulator-app/src/screens/HomeScreen.tsx:92 | `Collections.Home.LoadPublicExams` |
| Strings.Lower | src/screens/ResultsScreen.tsx:716 | `Scenarios.CapitalCityAttempts` |
| Strings.Split | src/screens/UploadScreen.tsx:367-373 | `Upload.ErrorReportLines`, the read-back of the `join('\n')` report |
| Upload.FormatPath | src/screens/UploadScreen.tsx:368-371 | `RootPathLabel`, `QuestionsPathDotted`, `ThirdRewriteIdle`, `FormatPathNoBreak` |
| Upload.SrcRewrite | src/screens/UploadScreen.tsx:371 | `SrcRewriteFires`, `SrcRewriteExample` |
| Upload.AppRewrite | exam-simulator-app/src/screens/UploadScreen.tsx:96 | `AppRewriteFires`, `AppRewriteExample` |
| Upload.ErrorReport | src/screens/UploadScreen.tsx:367-373 | `ErrorReportLines`, `NoBreakInLine` |
| Upload.ViolatesRule | src/screens/UploadScreen.tsx:382-393 | `FirstViolation`, `RuleOnAcceptedDocument`, `RuleOnAcceptedQuestion` |
| Scoring.AppCountsCorrect | exam-simulator-app/src/screens/ResultsScreen.tsx:197-203 | `AppScoreAgreesWithStatus`, `AppScoreAndStatusCanDisagree` |
| Scoring.AppScore | exam-simulator-app/src/screens/ResultsScreen.tsx:189-207 | `ComputeAppScore`, `AppCorrectAtMostTotal` |
| Scoring.AppStatus | exam-simulator-app/src/screens/ResultsScreen.tsx:210-227 | `AppStatusCases`, `AppScoreAgreesWithStatus` |
| Scoring.SrcCountsCorrect | src/screens/ResultsScreen.tsx:713-718 | `SrcScoreAgreesWithStatus`, `SrcAnswerNAIsNotAnswered` |
| Scoring.SrcScore | src/screens/ResultsScreen.tsx:705-722 | `ComputeSrcScore`, `SrcCorrectAtMostTotal`, `SrcCorrectCountsCorrectStatuses` |
| Scoring.SrcStatus | src/screens/ResultsScreen.tsx:725-738 | `SrcScoreAgreesWithStatus`, `SrcCorrectCountsCorrectStatuses` |
| Export.FormatDuration | src/screens/ResultsScreen.tsx:526-531 | `FormatDurationReadsBack`, `DurationFields` |
| Export.AppScoreText | exam-simulator-app/src/screens/ResultsScreen.tsx:269 | `AppScoreTextCases` |
| Export.ExportQuestionOf | exam-simulator-app/src/screens/ResultsScreen.tsx:270-279 | `ExportQuestionFacts`, `QuestionRowLayout` |
| Export.ResultsExportOf | exam-simulator-app/src/screens/ResultsScreen.tsx:264-281 | `ExportQuestionFacts`, `CsvLayout` |
| Export.CsvText | exam-simulator-app/src/screens/ResultsScreen.tsx:259 | `ConvertResultsToCsv`, `CsvLayout` |
| ExamSession.MainText | src/screens/ExamExecutionScreen.tsx:253 | `EqualTextsHighlightTogether`, `SameTextDistinctOptions` |
| ExamSession.IsSelected | src/screens/ExamExecutionScreen.tsx:256-260 | `SelectionHighlights`, `EqualTextsHighlightTogether`, `SameTextDistinctOptions` |
| Collections.Holds | exam-simulator-app/src/screens/HomeScreen.tsx:92 | `FilterMembers`, `FilterKeepsAll`, `FiltersCommute` |

## Left out

- Ajv itself: its error objects enter the upload model as a list of (instance path, message). Which errors Ajv
  reports, and in what order, is not modelled. Acceptance is decided by `ExamSchema.ValidExam`.
- JSON text: parsing and `JSON.stringify` (including pretty printing) are outside the model. A document enters as a
  parsed tree, or as the outcome "does not parse". The JSON export is modelled as the value that would be
  stringified.
- Duplicate member keys in one JSON object: the model reads the first occurrence, while `JSON.parse` keeps the last.
- Numbers are integers. Floating-point ids and durations, and `toString` of non-integers, are not modelled.
- Language-map key order: JavaScript puts integer-like keys first. The model keeps document order. The schema's
  key pattern excludes integer-like keys in language maps, so this only matters for unvalidated data.
- Case and whitespace are ASCII only: `toLowerCase` and `\s` are modelled on ASCII characters.
- Prototype keys: `in` and property lookup never see inherited keys (`toString`, `constructor`) in the model.
- `LangTextResolvers.ResolveTruthy`: an array passed as a text value is not representable in the typed record, so the
  src resolver's array exclusion is not modelled.
- The clock, new ids and ISO dates are parameters (`now`, `newId`, `examDate`).
- The stores are fields or parameters. Storage write failures, the catch branches they lead to, and the platform
  file APIs (picker, FileReader, FileSystem, Sharing, Blob download) are not modelled.
- `Upload.HandleFileUpload`: the file read splits into one "read failed" outcome. The src copy's three read paths
  (web reader, mobile FileSystem, missing asset information) are not told apart.
- Rendering: styled components, theming, navigation, alerts and status messages are left out. So are the results
  screens' on-screen correct/incorrect indicators and the option lists shown per language map.
- The src results screen's CSV branch is dead code. It calls `getStatusForExport` and `convertResultsToCsv`, which
  exist only inside a commented-out block of that file. CSV is modelled from the exam-simulator-app copy only.
- The commented-out first halves of `src/screens/ResultsScreen.tsx`, `src/screens/UploadScreen.tsx` and
  `src/lib/examSchema.ts` are not modelled.
- The Login and Register screens are not modelled: they only guard empty or mismatched input before calling the auth
  provider.
- `Export.FormatDurationReadsBack`: states nothing for negative durations. Those come from a clock running backwards,
  and the text then carries minus signs from the truncating `%`.
- `Export.CsvFieldRoundTrip`: shows that one field reads back. A full CSV reader that splits rows and fields at
  unquoted separators is not modelled.
- `ExamSession.Session.LoadExamDetails`: keeps the index in range only for a load on the first question, which is
  what happens on mount. A reload for a different exam keeps the old index, and the screen then shows that no
  question was found.
- `ExamSession.Session.RestoreAnswer`: the effect is modelled as a method of its own. React runs it after every
  change to the index, the exam or the answers; `ExamSession.AnswerThenRestore` shows one such sequence.
