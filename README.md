# WIPPF scoring engine, CSV import mapper and app shell, in Dafny

This project models the logic core of a small browser application for a
psychometric questionnaire (the WIPPF). A respondent answers every catalogue
question on a 1..4 Likert scale. The application sums the answers into
category scores and macro-dimension scores. It can also import a batch of
respondents from delimited text, and it keeps a history of the results.

The model has six modules:

- `Scoring` (services/scoring.ts) covers three things:
  - Category codes are matched and resolved. Category 24 folds into the
    synthetic ids `24m`/`24f`/`24o` by its letter.
  - `CalculateScores` builds the 29-key score map, with initialisation and an
    accumulation loop.
  - `CalculateMacroScores` builds the social (categories 1..11) and emotional
    (categories 12..19) a/b/c triads.

  The forEach callbacks of both functions are methods of their own,
  `TallyQuestion` and `TallyMacroQuestion`.

  Both methods are proved equal to specification functions, `ScoreMap` and
  `MacroOf`. Lemmas about those functions prove four things: the key set, the
  24-folding, non-negativity, and independence from the catalogue order.
- `CsvImporter` (components/CsvImporter.tsx) covers the following:
  - The text is split into rows on line breaks, with an optional carriage
    return, and into cells on `,` or `;`. Cells are trimmed, and rows whose
    every cell is empty are dropped.
  - Each score column is paired with the question column. Every row that
    parses is clamped into 1..4 and stored; a later row overwrites an earlier
    one.
  - A label is chosen for each person.
  - The `Importer` class holds the mapping state. Its methods are
    `ToggleScoreCol`, `UpdateName` and `ProcessImport`.
- `App` (App.tsx) covers the following:
  - the category drill-down filter;
  - the expand/collapse toggle and the expansion of a highlighted category
    (`SummaryTable`);
  - the two-slot comparison selection, its pruning and the display/compare
    choice (`Dashboard`);
  - the answer flow of the questionnaire (`AssessmentFlow`);
  - the history handlers of the shell (`AppShell`).
- `Text` is a stand-in for the JavaScript library functions the core relies
  on: `trim`, `split`, `parseInt` and `Number#toString`.
- `Seqs` holds sums, order-preserving filters and list toggling, shared by the
  other modules.
- `Types` holds the records of types.ts.

The question catalogue is a parameter (`catalogue: seq<Question>`) rather than
the constant list of the constants module. The constants module is not part
of this model.

## Model

| member | source | states |
|---|---|---|
| Scoring.MatchCode | services/scoring.ts:26 | the pattern `^(\d+)([a-z])?` matches iff the code starts with a digit; the match is the maximal digit run followed by an optional lower-case letter |
| Scoring.MatchCodeRoundTrip | services/scoring.ts:26 | a digit run and optional letter, followed by text that cannot extend the match, are matched back exactly |
| Scoring.ResolveCategory | services/scoring.ts:29-44 | the category id is the matched digit run as written, except that 24 followed by a..c, d..f or g..i becomes 24m, 24f or 24o (proved in ResolveCategoryOfMatch, Category24Folding and Category24Bare) |
| Scoring.ResolveCategoryOfMatch | services/scoring.ts:26-44 | a code has a category id iff it starts with a digit; the id is its digit run, leading zeros kept, unless it is a fold of 24, and only the digits "24" fold |
| Scoring.InitialScores | services/scoring.ts:7-16 | the initial map has exactly the score keys, each at 0 |
| Scoring.ScoreKeysExactly | services/scoring.ts:8-16 | the initialisation loop produces exactly "1".."23", "24m", "24f", "24o", "25".."27": 29 keys |
| Scoring.KeysUpToCount | services/scoring.ts:8-16 | after the loop has run up to n, it has created n keys, or n+2 once 24 has been passed |
| Scoring.KeysUpToShape | services/scoring.ts:8-16 | every created key is the canonical decimal name of some 1..n other than 24, or one of the three 24 sub-ids |
| Scoring.KeysUpToNumbers | services/scoring.ts:8-16 | after the loop has run up to n, the keys are the decimal names of 1..n other than 24, plus the three 24 sub-ids once 24 has been passed |
| Scoring.DigitKeys | services/scoring.ts:46-48 | a digit string is a key iff it is the canonical name of a number in 1..27 other than 24 |
| Scoring.KeysNoLeadingZero | services/scoring.ts:14 | no key is empty or starts with '0' |
| Scoring.ScoreBucket | services/scoring.ts:26-49 | a question is only ever credited to an existing score key |
| Scoring.TallyQuestion | services/scoring.ts:19-52 | the callback adds an answered question to the category its code resolves to when that category is a key, and otherwise leaves the map alone |
| Scoring.TallyExtendsScoreMap | services/scoring.ts:19-52 | tallying one more question into the score map of a catalogue gives the score map of the catalogue extended by it |
| Scoring.TwentyFourNotKey | services/scoring.ts:9-12 | the bare id "24" is never a score key |
| Scoring.Category24Folding | services/scoring.ts:36-44 | a 24 code goes to 24m for letters a-c, 24f for d-f, 24o for g-i, and nowhere for any other letter |
| Scoring.Category24Bare | services/scoring.ts:36-44 | a 24 code without a letter goes nowhere |
| Scoring.UnmatchedCodesDropped | services/scoring.ts:26-28 | a code that does not start with a digit contributes nothing |
| Scoring.NonKeyDigitsDropped | services/scoring.ts:46-48 | a digit run that is not the canonical name of 1..27 contributes nothing |
| Scoring.NotKeys | services/scoring.ts:46-48 | "28" and "01" are not score keys |
| Scoring.LeadingZeroDropped | services/scoring.ts:29-48 | a code whose digits start with '0' contributes nothing to the category scores |
| Scoring.CalculateScores | services/scoring.ts:4-55 | the two loops compute exactly ScoreMap: for each key, the sum of the answered values of the questions resolving to it |
| Scoring.CategorySumAppend | services/scoring.ts:19-52 | one more question adds exactly its own contribution to a category sum |
| Scoring.SumsOverAppend | services/scoring.ts:28-49 | one more answered question adds its value to its own bucket only, when that bucket is among the keys |
| Scoring.ScoreMapOfNoQuestions | services/scoring.ts:7-16 | with no questions, the map is total over the keys and all zeros |
| Scoring.ScoresNonNegative | services/scoring.ts:19-52 | for Likert answers, every category score is at least 0 |
| Scoring.SilentQuestionsChangeNothing | services/scoring.ts:28-33 | an unanswered question, or one without a bucket, leaves the scores unchanged |
| Scoring.ScoresOrderIndependent | services/scoring.ts:19-52 | any permutation of the catalogue gives the same score map |
| Scoring.AxisSumAppend | services/scoring.ts:63-88 | one more question adds exactly its own contribution to an axis sum |
| Scoring.AddToAxis | services/scoring.ts:75-86 | adding to one axis changes that axis by the value and leaves the other five alone |
| Scoring.MacroExtensional | services/scoring.ts:58-61 | macro profiles that agree on all six axes are equal |
| Scoring.TallyMacroQuestion | services/scoring.ts:63-88 | the callback skips codes without a letter and unanswered questions, and otherwise adds the answer to the axis the number range and letter select |
| Scoring.MacroTallyExtendsProfile | services/scoring.ts:63-88 | tallying one more question into the macro profile of a catalogue gives the profile of the catalogue extended by it |
| Scoring.CalculateMacroScores | services/scoring.ts:57-91 | the loop computes exactly MacroOf: the answered a/b/c values of categories 1..11 go to the social triad and those of 12..19 to the emotional triad |
| Scoring.MacroAxisOf | services/scoring.ts:64-87 | the axis a question feeds is fixed by the parsed number and the letter (proved in MacroAxisIff, MacroAxisByRange and MacroIgnoresOtherCodes) |
| Scoring.MacroAxisIff | services/scoring.ts:64-87 | a code has a macro axis iff it carries a letter a, b or c and its number parses to 1..19; the axis is social exactly for 1..11 |
| Scoring.MacroAxisByRange | services/scoring.ts:73-87 | for a canonically numbered code: categories 1..11 go to active/passive/concept and 12..19 to self/we/ideal, by a/b/c; any other letter or range goes nowhere |
| Scoring.MacroIgnoresOtherCodes | services/scoring.ts:64-73 | a code without a letter, outside 1..19, or with a letter other than a/b/c has no macro axis |
| Scoring.LeadingZeroResolversDiffer | services/scoring.ts:64-67 | "01a" counts toward social.active, because parseInt ignores the zero, but toward no category score |
| Scoring.MacroOrderIndependent | services/scoring.ts:63-88 | any permutation of the catalogue gives the same macro profile |
| Scoring.MacroNonNegative | services/scoring.ts:63-88 | for Likert answers, every macro axis is at least 0 |
| Scoring.ExampleMatches | services/scoring.ts:26 | the pattern splits "1a", "1b" and "24a" into their digits and letter |
| Scoring.ExampleBuckets | services/scoring.ts:26-49 | 1a and 1b are credited to "1", and 24a to "24m" |
| Scoring.ExampleAxes | services/scoring.ts:64-87 | 1a is social.active and 1b social.passive, while 24a has no axis |
| Scoring.ExampleScores | services/scoring.ts:19-52 | answers {1a:4, 1b:2, 24a:3} give score "1" = 6 and "24m" = 3 |
| Scoring.ExampleMacro | services/scoring.ts:63-88 | the same answers give social.active = 4 and social.passive = 2 |
| Text.Trim | components/CsvImporter.tsx:28 | trim drops the leading and trailing whitespace and nothing else (proved in TrimShape, TrimStartShape, TrimEndShape and TrimEmptyIffBlank) |
| Text.TrimShape | components/CsvImporter.tsx:28 | trim removes exactly the leading and trailing whitespace and keeps the infix |
| Text.TrimStartShape | components/CsvImporter.tsx:28 | the leading whitespace, and only it, is removed: what remains is a suffix that is empty or starts with a non-space |
| Text.TrimEndShape | components/CsvImporter.tsx:28 | the trailing whitespace, and only it, is removed: what remains is a prefix that is empty or ends with a non-space |
| Text.TrimEmptyIffBlank | components/CsvImporter.tsx:67-69 | a trimmed string is empty iff the string is all whitespace |
| Text.Split | components/CsvImporter.tsx:28 | split gives one part more than there are separators, the parts carry no separator, and joining them back with the separators gives the input (proved in SplitJoin, SplitChars and SplitAtSeparator) |
| Text.SplitChars | components/CsvImporter.tsx:28 | every character of a part comes from the input and is not a separator |
| Text.SplitAppendChar | components/CsvImporter.tsx:28 | appending a non-separator extends only the last part |
| Text.SplitAtSeparator | components/CsvImporter.tsx:28 | splitting two texts joined by a separator gives the parts of each, in order |
| Text.SplitJoin | components/CsvImporter.tsx:28 | re-joining the parts with the separators removed gives the input back |
| Text.NatToStringInjective | services/scoring.ts:14 | distinct numbers have distinct decimal names |
| Text.DigitsOfNat | services/scoring.ts:14 | the decimal name is all digits and reads back as the number |
| Text.ParseInt | components/CsvImporter.tsx:74-75 | parseInt(s, 10) skips leading whitespace, reads one optional sign and the digit run after it, and is NaN when that run is empty (proved in ParseIntLeadingDigits, ParseIntSkipsWhitespace and ParseIntNaN) |
| Text.ParseIntLeadingDigits | components/CsvImporter.tsx:74-75 | whitespace, then no sign, '+' or '-', then a digit run followed by anything but a digit, parses to the value of the run, negated after '-' |
| Text.ParseIntSkipsWhitespace | components/CsvImporter.tsx:74-75 | parseInt ignores leading whitespace |
| Text.ParseIntOfNat | components/CsvImporter.tsx:74-75 | parseInt inverts the decimal name of a number |
| Text.ParseIntOfNegative | components/CsvImporter.tsx:74-75 | parseInt of "-" followed by a decimal name gives the negative number |
| Text.ParseIntNaN | components/CsvImporter.tsx:74-77 | parseInt is NaN, and the row skipped, exactly when what follows the leading whitespace is neither a digit nor one sign followed by a digit |
| CsvImporter.DropCR | components/CsvImporter.tsx:28 | the line-break pattern removes at most one carriage return from the end of a line |
| CsvImporter.Lines | components/CsvImporter.tsx:28 | there is one line per newline-separated part, and at least one |
| CsvImporter.LinesHaveNoNewline | components/CsvImporter.tsx:28 | no line contains a newline |
| CsvImporter.RowCellsClean | components/CsvImporter.tsx:28 | cells of a line carry no separator and no surrounding whitespace |
| CsvImporter.ParseTableClean | components/CsvImporter.tsx:28-29 | every kept row has a non-empty cell, and every cell is trimmed and separator-free |
| CsvImporter.ParseTable | components/CsvImporter.tsx:28-29 | the table is the cell rows of the lines, in order, without the rows whose every cell is empty (proved in ParseTableRows, ParseTableClean and ParseTableAppend) |
| CsvImporter.ParseTableRows | components/CsvImporter.tsx:28-29 | every table row is a row of the text, and a row of the text is in the table iff some cell of it is non-empty |
| CsvImporter.RowCellsDropCR | components/CsvImporter.tsx:28 | a trailing carriage return never changes the cells of a line |
| CsvImporter.RowsAppend | components/CsvImporter.tsx:28 | the rows of two texts joined by a newline are the rows of each, in order |
| CsvImporter.ParseTableAppend | components/CsvImporter.tsx:28-29 | parsing two texts joined by a newline gives the concatenation of their tables |
| CsvImporter.ParseTableOneLine | components/CsvImporter.tsx:28-29 | a single line gives its cells as one row, or nothing when every cell is blank |
| CsvImporter.Clamp | components/CsvImporter.tsx:78-79 | the stored value is in 1..4: values below 1 become 1, above 4 become 4, the rest are kept |
| CsvImporter.ColumnAnswers | components/CsvImporter.tsx:71-82 | one score column's answers: each data row whose question and score cells both parse sets that question to the clamped score, a later row winning (proved in ColumnAnswersKeys, ColumnAnswersLastWins and ColumnAnswersLikert) |
| CsvImporter.BuildAnswers | components/CsvImporter.tsx:71-82 | the row loop computes exactly ColumnAnswers of the column pair |
| CsvImporter.ColumnAnswersAppend | components/CsvImporter.tsx:73-82 | one more row sets its question to its clamped score when both cells parse, and otherwise changes nothing |
| CsvImporter.ColumnAnswersLikert | components/CsvImporter.tsx:78-80 | every imported answer is a Likert value |
| CsvImporter.ColumnAnswersKeys | components/CsvImporter.tsx:74-80 | a question id is answered iff some row carries it with a score that parses |
| CsvImporter.ColumnAnswersLastWins | components/CsvImporter.tsx:80 | the last row that sets a question decides its clamped value |
| CsvImporter.ColumnAnswersLocal | components/CsvImporter.tsx:71-82 | a column's answers depend only on its own cells and the question cells, so other columns cannot affect them |
| CsvImporter.SkippedRow | components/CsvImporter.tsx:74-77 | a row whose question or score cell does not parse is skipped for that column |
| CsvImporter.ClampedRows | components/CsvImporter.tsx:78-80 | a score cell "9" is stored as 4 and "0" as 1 |
| CsvImporter.PersonName | components/CsvImporter.tsx:67-69 | the custom name when it is set and non-blank after trimming, otherwise "Person <index>" (proved in PersonNameChoice) |
| CsvImporter.PersonNameChoice | components/CsvImporter.tsx:67-69 | the label is the custom name when it is non-blank, otherwise "Person <index>"; it is never blank |
| CsvImporter.Importer.constructor | components/CsvImporter.tsx:11-17 | nothing loaded, no question column, no score columns and no names |
| CsvImporter.Importer.LoadText | components/CsvImporter.tsx:28-30 | the table becomes the parse of the text, and the mapping is kept |
| CsvImporter.Importer.ChooseQuestionColumn | components/CsvImporter.tsx:165 | the question column becomes the chosen header index, and nothing else changes |
| CsvImporter.Importer.ToggleScoreCol | components/CsvImporter.tsx:36-53 | the column is removed if present and appended if absent; its name is dropped, or suggested from the header cell; columns stay duplicate-free |
| CsvImporter.Importer.UpdateName | components/CsvImporter.tsx:55-57 | only the name of that column changes |
| CsvImporter.Importer.ProcessImport | components/CsvImporter.tsx:59-98 | there is no import without a question column and a score column; otherwise there is one result per score column, in order, carrying its label, its column answers and their category and macro scores |
| App.InCategory | App.tsx:196-205 | the filter test lists a code under a category id iff its match has that digit run, or the digits 24 and a letter of that fold (proved against the scoring engine in InCategoryIffBucket) |
| App.QuestionsForCategory | App.tsx:194-207 | the drill-down lists exactly the catalogue questions of the category |
| App.InCategoryIffBucket | App.tsx:194-207 | a question is listed under a category iff the scoring engine credits it to that category |
| App.CategoryRowsSumToScore | App.tsx:194-207 | the answers listed under a category sum to that category's score |
| App.SummaryTable.constructor | App.tsx:159 | no category is expanded |
| App.SummaryTable.ToggleExpand | App.tsx:179-185 | the category is collapsed if expanded and expanded otherwise; the list stays duplicate-free |
| App.SummaryTable.Highlight | App.tsx:162-166 | a non-empty highlighted category id is expanded: appended when it was collapsed, the list unchanged otherwise; the list stays duplicate-free |
| App.SelectionToggled | App.tsx:323-331 | a selected id is removed; an unselected id is appended, evicting the older of two (proved in SelectionToggledProperties) |
| App.SelectionToggledProperties | App.tsx:322-332 | the selection holds at most two results without duplicates. Toggling flips only that id: a removal keeps every other id, a new id is appended after the unchanged selection when fewer than two are selected, and otherwise the older of the two is evicted |
| App.Dashboard.constructor | App.tsx:310 | nothing is selected |
| App.Dashboard.ToggleSelection | App.tsx:322-332 | the selection becomes the toggled selection, and stays within two and duplicate-free |
| App.Dashboard.PruneSelection | App.tsx:315-320 | the selection keeps exactly the ids still in the history, in order |
| App.DisplayResult | App.tsx:341-343 | something is displayed iff the history is non-empty |
| App.CompareResult | App.tsx:344 | a comparison is shown iff exactly two history entries are selected |
| App.DisplayIsFirstSelected | App.tsx:341-343 | with a selection, the displayed result is the first selected one in history order |
| App.DisplayDefaultsToNewest | App.tsx:341-343 | without a selection, the newest result is displayed |
| App.ComparisonPair | App.tsx:341-344 | when comparing, both shown results are selected, and the displayed one precedes the compared one in the history |
| App.AssessmentFlow.constructor | App.tsx:85-86 | the flow starts at the first question with no answers |
| App.AssessmentFlow.HandleAnswer | App.tsx:91-100 | the current question's answer is recorded, and the flow advances or completes after the last question; a completed answer set is Likert and covers every question |
| App.Deleted | App.tsx:564 | the history without the records of that id, in order (proved in DeletedProperties, DeleteAbsent and DeleteUndoesPrepend) |
| App.DeletedProperties | App.tsx:562-566 | after a delete the id is gone, every other record is kept, and nothing new appears |
| App.DeleteAbsent | App.tsx:564 | deleting an id not in the history changes nothing |
| App.DeleteUndoesPrepend | App.tsx:540-566 | deleting a just-completed record with a fresh id restores the previous history |
| App.PruneAfterDelete | App.tsx:315-320 | after a delete and the pruning effect, the deleted id is no longer selected |
| App.AppShell.constructor | App.tsx:520-529 | the shell starts at home with no name and the saved history |
| App.AppShell.HandleStart | App.tsx:535-538 | the name is recorded and the questionnaire view is shown |
| App.AppShell.HandleComplete | App.tsx:540-555 | the new record, scored by the scoring engine, is prepended to the history and the history view is shown |
| App.AppShell.HandleImport | App.tsx:557-560 | the imported results are prepended in order and the history view is shown |
| App.AppShell.HandleDelete | App.tsx:562-566 | the history loses exactly the records with that id |
| Seqs.ToggleMembership | App.tsx:179-185 | toggling keeps a list duplicate-free and flips the membership of that element only |
| Seqs.ToggleTwice | components/CsvImporter.tsx:36-53 | toggling an absent element twice restores the list |
| Seqs.FilterMembers | App.tsx:315-320 | a filter keeps exactly the elements that pass the predicate |
| Seqs.FilterOrder | App.tsx:341-344 | two kept elements appear in the input in the same order as in the result |
| Seqs.FilterConcat | App.tsx:194-207 | filtering a concatenation is concatenating the filters, so relative order is kept |
| Seqs.SumPermutation | services/scoring.ts:19-52 | a sum does not depend on the order of its terms |

## Left out

- Rendering is not modelled. This covers the JSX, the charts (radar, line and
  macro profiles), styling and the float progress bar (App.tsx:89).
- FileReader is not modelled. `Importer.LoadText` receives the file text
  directly.
- localStorage and JSON persistence (App.tsx:520-533) are not modelled. The
  saved history is the parameter of `AppShell`'s constructor, and saving is
  not modelled.
- `Date.now`, `Math.random` and `toISOString` are not modelled. Every new
  record receives its id and date as a `Stamp` parameter, and
  `ProcessImport` receives a stamp per column. Whether ids are unique is
  therefore not modelled.
- The 100 ms `setTimeout` in handleAnswer is modelled as an immediate
  advance. A second click inside that window, which re-answers the same
  question, is not modelled.
- `window.confirm` in handleDelete is modelled as confirmed. A cancelled
  delete changes nothing.
- These App.tsx behaviours are not modelled because they only touch the
  page or navigate:
  - the scroll-into-view and flash of the highlight effect (App.tsx:167-175);
  - the chart click handler;
  - tab state;
  - view routing beyond the shell's `view` field.
- The importer's upload/map steps, its Back button and onCancel are not
  modelled. `LoadText` keeps the current column choices, as the source's
  state does.
- The disabled score checkbox of the question column
  (CsvImporter.tsx:174) is a UI guard, not a condition of toggleScoreCol. It
  is not made a precondition, so a column can be both the question column
  and a score column, as in the source.
- Importer.ToggleScoreCol requires a loaded header row that has the column.
  The source only offers checkboxes for existing header cells
  (CsvImporter.tsx:156).
- The name check on the home screen (App.tsx:54-55) is not
  modelled. `HandleStart` accepts any name.
- The delimited text is not RFC 4180 CSV: the source has no quoting or
  escaping, and neither does the model.
- Text.ParseInt models parseInt on decimal digits with exact integers, so
  float rounding above 2^53 is not modelled.
- JavaScript object keys are strings. Answers are keyed by `int` here, which
  agrees with parseInt's integer results.
- The 1..4 typing of AnswerValue is a type-level promise in the source. It
  is stated here as the `LikertAnswers` predicate where lemmas need it.
- The display texts, prompts and question wording of the constants module
  are not part of this model.
