/**
 * The CSV import mapper of components/CsvImporter.tsx: the text is cut into
 * rows of trimmed cells, one column is chosen for question ids and several
 * for scores, and each score column becomes one assessment result.
 */
module CsvImporter {
  import opened Types
  import opened Text
  import opened Seqs
  import Scoring

  // ---------------------------------------------------------------------------
  // Parsing the text into rows (lines 28-29)
  // ---------------------------------------------------------------------------

  predicate IsNewline(c: char) { c == '\n' }

  /** The cell separator class /,|;/. */
  predicate IsCellSep(c: char) { c == ',' || c == ';' }

  /** Drops one carriage return at the end of s, if any. */
  function DropCR(s: string): (r: string)
    ensures r == s || s == r + "\r"
  {
    if s != [] && s[|s| - 1] == '\r' then s[..|s| - 1] else s
  }

  /**
   * text.split(/\r?\n/): the parts between line feeds, each but the last
   * without the carriage return that the separator \r\n consumes.
   */
  function Lines(text: string): (lines: seq<string>)
    ensures |lines| == |Split(text, IsNewline)| >= 1
  {
    var parts := Split(text, IsNewline);
    seq(|parts|, i requires 0 <= i < |parts| => if i < |parts| - 1 then DropCR(parts[i]) else parts[i])
  }

  /** parts.map(cell => cell.trim()). */
  function TrimAll(parts: seq<string>): seq<string>
  {
    seq(|parts|, i requires 0 <= i < |parts| => Trim(parts[i]))
  }

  /** row.split(/,|;/).map(cell => cell.trim()). */
  function RowCells(line: string): seq<string>
  {
    TrimAll(Split(line, IsCellSep))
  }

  /** The cells of every line, before blank rows are dropped. */
  function Rows(text: string): (rows: seq<seq<string>>)
    ensures |rows| == |Lines(text)|
    ensures forall i :: 0 <= i < |rows| ==> rows[i] == RowCells(Lines(text)[i])
  {
    var lines := Lines(text);
    seq(|lines|, i requires 0 <= i < |lines| => RowCells(lines[i]))
  }

  /** r.some(c => c): some cell is a non-empty string. */
  predicate HasContent(row: seq<string>)
  {
    exists i :: 0 <= i < |row| && row[i] != ""
  }

  /** A cell as the parser leaves it: no separator or line feed inside, no whitespace at either end. */
  predicate CleanCell(cell: string)
  {
    && (forall k :: 0 <= k < |cell| ==> !IsCellSep(cell[k]) && !IsNewline(cell[k]))
    && (cell == [] || (!IsWhitespace(cell[0]) && !IsWhitespace(cell[|cell| - 1])))
  }

  /** The table handleFileUpload stores: the rows with content, in file order. */
  function ParseTable(text: string): (table: seq<seq<string>>)
  {
    Filter(Rows(text), HasContent)
  }

  /** No line contains a line feed. */
  lemma LinesHaveNoNewline(text: string)
    ensures forall i, k :: 0 <= i < |Lines(text)| && 0 <= k < |Lines(text)[i]| ==> !IsNewline(Lines(text)[i][k])
  {
    var parts, lines := Split(text, IsNewline), Lines(text);
    SplitChars(text, IsNewline);
    forall i, k | 0 <= i < |lines| && 0 <= k < |lines[i]| ensures !IsNewline(lines[i][k]) {
      assert lines[i][k] == parts[i][k];
    }
  }

  /** The cells of a line without line feeds are clean. */
  lemma RowCellsClean(line: string)
    requires forall k :: 0 <= k < |line| ==> !IsNewline(line[k])
    ensures forall j :: 0 <= j < |RowCells(line)| ==> CleanCell(RowCells(line)[j])
  {
    var parts := Split(line, IsCellSep);
    SplitChars(line, IsCellSep);
    forall j | 0 <= j < |parts| ensures CleanCell(RowCells(line)[j]) {
      var part := parts[j];
      var cell := Trim(part);
      TrimShape(part);
      assert RowCells(line)[j] == cell;
      forall k | 0 <= k < |cell| ensures !IsCellSep(cell[k]) && !IsNewline(cell[k]) {
        assert cell[k] == part[Leading(part) + k];
        assert part[Leading(part) + k] in line;
      }
    }
  }

  /** Every kept row has content and every cell is clean. */
  lemma ParseTableClean(text: string)
    ensures forall i :: 0 <= i < |ParseTable(text)| ==> HasContent(ParseTable(text)[i])
    ensures forall i, j :: 0 <= i < |ParseTable(text)| && 0 <= j < |ParseTable(text)[i]| ==> CleanCell(ParseTable(text)[i][j])
  {
    var table, rows, lines := ParseTable(text), Rows(text), Lines(text);
    LinesHaveNoNewline(text);
    FilterMembers(rows, HasContent);
    forall i | 0 <= i < |table| ensures forall j :: 0 <= j < |table[i]| ==> CleanCell(table[i][j]) {
      assert table[i] in rows;
      var r :| 0 <= r < |rows| && rows[r] == table[i];
      RowCellsClean(lines[r]);
    }
  }

  /** The table holds exactly the cell rows of the lines that have a non-empty cell. */
  lemma ParseTableRows(text: string)
    ensures forall i :: 0 <= i < |ParseTable(text)| ==> ParseTable(text)[i] in Rows(text)
    ensures forall i :: 0 <= i < |Rows(text)| ==> (Rows(text)[i] in ParseTable(text) <==> HasContent(Rows(text)[i]))
  {
    var table, rows := ParseTable(text), Rows(text);
    FilterMembers(rows, HasContent);
    forall i | 0 <= i < |rows| && rows[i] in table ensures HasContent(rows[i]) {
      var j :| 0 <= j < |table| && table[j] == rows[i];
    }
  }

  /** Both the trailing carriage return and the trim remove nothing but whitespace, so dropping the \r changes no cell. */
  lemma RowCellsDropCR(line: string)
    ensures RowCells(DropCR(line)) == RowCells(line)
  {
    if line != [] && line[|line| - 1] == '\r' {
      var t := DropCR(line);
      assert line == t + ['\r'];
      SplitAppendChar(t, '\r', IsCellSep);
      var p := Split(t, IsCellSep);
      var n := |p| - 1;
      TrimAppendWhitespace(p[n], '\r');
      TrimAllLastPart(p[..n], p[n], p[n] + ['\r']);
      assert p == p[..n] + [p[n]];
    }
  }

  /** Replacing the last part by one with the same trim leaves the cells unchanged. */
  lemma TrimAllLastPart(init: seq<string>, x: string, y: string)
    requires Trim(x) == Trim(y)
    ensures TrimAll(init + [x]) == TrimAll(init + [y])
  {
    var a, b := TrimAll(init + [x]), TrimAll(init + [y]);
    forall i | 0 <= i < |a| ensures a[i] == b[i] {
      if i < |init| {
        assert (init + [x])[i] == (init + [y])[i];
      }
    }
  }

  /** The rows of two texts joined by a line feed are the rows of each, in order. */
  lemma RowsAppend(a: string, b: string)
    ensures Rows(a + "\n" + b) == Rows(a) + Rows(b)
  {
    SplitAtSeparator(a, '\n', b, IsNewline);
    assert a + "\n" + b == a + ['\n'] + b;
    var p := Split(a, IsNewline);
    var lines, la, lb := Lines(a + "\n" + b), Lines(a), Lines(b);
    var rows, ra, rb := Rows(a + "\n" + b), Rows(a), Rows(b);
    forall i | 0 <= i < |rows| ensures rows[i] == (ra + rb)[i] {
      if i < |p| - 1 {
        assert lines[i] == la[i];
      } else if i == |p| - 1 {
        assert lines[i] == DropCR(p[i]) && la[i] == p[i];
        RowCellsDropCR(p[i]);
      } else {
        assert lines[i] == lb[i - |p|];
      }
    }
  }

  /** Lines are parsed independently: the table of two texts joined by a line feed is the two tables, in order. */
  lemma ParseTableAppend(a: string, b: string)
    ensures ParseTable(a + "\n" + b) == ParseTable(a) + ParseTable(b)
  {
    RowsAppend(a, b);
    FilterConcat(Rows(a), Rows(b), HasContent);
  }

  /** A single line gives its cells, or nothing when they are all empty. */
  lemma ParseTableOneLine(line: string)
    requires forall k :: 0 <= k < |line| ==> !IsNewline(line[k])
    ensures ParseTable(line) == if HasContent(RowCells(line)) then [RowCells(line)] else []
  {
    SplitNoSeparator(line, IsNewline);
    assert Rows(line) == [RowCells(line)];
    assert [RowCells(line)][1..] == [];
  }

  // ---------------------------------------------------------------------------
  // Answers of one score column (lines 71-82)
  // ---------------------------------------------------------------------------

  /** parseInt(row[i], 10), where a missing cell (undefined) is NaN. */
  function CellValue(row: seq<string>, i: int): Option<int>
  {
    if 0 <= i < |row| then ParseInt(row[i]) else None
  }

  /** The clamping of lines 78-79. */
  function Clamp(score: int): (r: int)
    ensures 1 <= r <= 4
    ensures 1 <= score <= 4 ==> r == score
    ensures score < 1 ==> r == 1
    ensures score > 4 ==> r == 4
  {
    if score < 1 then 1 else if score > 4 then 4 else score
  }

  /** Row row sets question q to clamped score s for the column: both cells parse. */
  predicate RowSets(row: seq<string>, qCol: int, sCol: int, q: int)
  {
    CellValue(row, qCol) == Some(q) && CellValue(row, sCol).Some?
  }

  /** The answers of one score column, row after row; a later row overwrites an earlier one. */
  function ColumnAnswers(rows: seq<seq<string>>, qCol: int, sCol: int): Answers
  {
    if rows == [] then map[]
    else
      var before := ColumnAnswers(rows[..|rows| - 1], qCol, sCol);
      var row := rows[|rows| - 1];
      var q, s := CellValue(row, qCol), CellValue(row, sCol);
      if q.Some? && s.Some? then before[q.value := Clamp(s.value)] else before
  }

  /** The forEach over the data rows of lines 73-82, with the let-bound score reassigned by the clamp. */
  method BuildAnswers(rows: seq<seq<string>>, qCol: int, sCol: int) returns (answers: Answers)
    ensures answers == ColumnAnswers(rows, qCol, sCol)
  {
    answers := map[];
    for k := 0 to |rows|
      invariant answers == ColumnAnswers(rows[..k], qCol, sCol)
    {
      var row := rows[k];
      var qNum := CellValue(row, qCol);
      var score := CellValue(row, sCol);
      if qNum.Some? && score.Some? {
        var value := score.value;
        if value < 1 { value := 1; }
        if value > 4 { value := 4; }
        answers := answers[qNum.value := value];
      }
      assert rows[..k + 1][..k] == rows[..k];
    }
    assert rows[..|rows|] == rows;
  }

  /** Every stored answer is a Likert value. */
  lemma {:induction false} ColumnAnswersLikert(rows: seq<seq<string>>, qCol: int, sCol: int)
    ensures LikertAnswers(ColumnAnswers(rows, qCol, sCol))
    decreases |rows|
  {
    if rows != [] {
      ColumnAnswersLikert(rows[..|rows| - 1], qCol, sCol);
    }
  }

  /** Appending a row: it sets its question to its clamped score when both cells parse, and otherwise changes nothing. */
  lemma ColumnAnswersAppend(rows: seq<seq<string>>, row: seq<string>, qCol: int, sCol: int)
    ensures ColumnAnswers(rows + [row], qCol, sCol) ==
      var q, s := CellValue(row, qCol), CellValue(row, sCol);
      if q.Some? && s.Some? then ColumnAnswers(rows, qCol, sCol)[q.value := Clamp(s.value)]
      else ColumnAnswers(rows, qCol, sCol)
  {
    assert (rows + [row])[..|rows|] == rows;
  }

  /** A question id is answered exactly when some row gives it with a parsable score. */
  lemma {:induction false} ColumnAnswersKeys(rows: seq<seq<string>>, qCol: int, sCol: int, q: int)
    ensures q in ColumnAnswers(rows, qCol, sCol) <==> exists i :: 0 <= i < |rows| && RowSets(rows[i], qCol, sCol, q)
    decreases |rows|
  {
    if rows != [] {
      var init, last := rows[..|rows| - 1], rows[|rows| - 1];
      assert rows == init + [last];
      ColumnAnswersKeys(init, qCol, sCol, q);
      ColumnAnswersAppend(init, last, qCol, sCol);
      if q in ColumnAnswers(rows, qCol, sCol) {
        if !RowSets(last, qCol, sCol, q) {
          var i :| 0 <= i < |init| && RowSets(init[i], qCol, sCol, q);
          assert rows[i] == init[i];
        }
      } else {
        forall i | 0 <= i < |rows| ensures !RowSets(rows[i], qCol, sCol, q) {
          if i < |init| {
            assert rows[i] == init[i];
          }
        }
      }
    }
  }

  /** The last row that gives question q decides its answer: its score, clamped. */
  lemma {:induction false} ColumnAnswersLastWins(rows: seq<seq<string>>, qCol: int, sCol: int, i: nat, q: int, s: int)
    requires i < |rows| && CellValue(rows[i], qCol) == Some(q) && CellValue(rows[i], sCol) == Some(s)
    requires forall j :: i < j < |rows| ==> !RowSets(rows[j], qCol, sCol, q)
    ensures q in ColumnAnswers(rows, qCol, sCol) && ColumnAnswers(rows, qCol, sCol)[q] == Clamp(s)
    decreases |rows|
  {
    if i < |rows| - 1 {
      var init := rows[..|rows| - 1];
      ColumnAnswersLastWins(init, qCol, sCol, i, q, s);
      assert !RowSets(rows[|rows| - 1], qCol, sCol, q);
    }
  }

  /** A column's answers depend only on the question cells and that column's cells. */
  lemma {:induction false} ColumnAnswersLocal(rows: seq<seq<string>>, rows': seq<seq<string>>, qCol: int, sCol: int)
    requires |rows| == |rows'|
    requires forall i :: 0 <= i < |rows| ==>
      CellValue(rows[i], qCol) == CellValue(rows'[i], qCol) && CellValue(rows[i], sCol) == CellValue(rows'[i], sCol)
    ensures ColumnAnswers(rows, qCol, sCol) == ColumnAnswers(rows', qCol, sCol)
    decreases |rows|
  {
    if rows != [] {
      ColumnAnswersLocal(rows[..|rows| - 1], rows'[..|rows'| - 1], qCol, sCol);
    }
  }

  /** A row whose question or score cell has no leading integer ("abc", missing) changes nothing. */
  lemma SkippedRow(rows: seq<seq<string>>, row: seq<string>, qCol: int, sCol: int)
    requires CellValue(row, qCol).None? || CellValue(row, sCol).None?
    ensures ColumnAnswers(rows + [row], qCol, sCol) == ColumnAnswers(rows, qCol, sCol)
  {
    ColumnAnswersAppend(rows, row, qCol, sCol);
  }

  /** A score row "7,9" stores 4 for question 7, and "7,0" stores 1. */
  lemma ClampedRows(rows: seq<seq<string>>)
    ensures ColumnAnswers(rows + [["7", "9"]], 0, 1) == ColumnAnswers(rows, 0, 1)[7 := 4]
    ensures ColumnAnswers(rows + [["7", "0"]], 0, 1) == ColumnAnswers(rows, 0, 1)[7 := 1]
  {
    ParseIntOfNat(7);
    ParseIntOfNat(9);
    ParseIntOfNat(0);
    assert NatToString(7) == "7" && NatToString(9) == "9" && NatToString(0) == "0";
    assert CellValue(["7", "9"], 0) == Some(7) && CellValue(["7", "9"], 1) == Some(9);
    assert CellValue(["7", "0"], 0) == Some(7) && CellValue(["7", "0"], 1) == Some(0);
    ColumnAnswersAppend(rows, ["7", "9"], 0, 1);
    ColumnAnswersAppend(rows, ["7", "0"], 0, 1);
  }

  // ---------------------------------------------------------------------------
  // The mapper's state (lines 11-17, 36-57) and the import (lines 59-98)
  // ---------------------------------------------------------------------------

  /** The default label of a score column. */
  function DefaultName(idx: nat): string
  {
    "Person " + NatToString(idx)
  }

  /** customNames[idx] when it is set and non-blank after trimming, else "Person <idx>". */
  function PersonName(customNames: map<nat, string>, idx: nat): string
  {
    if idx in customNames && customNames[idx] != "" && Trim(customNames[idx]) != "" then customNames[idx]
    else DefaultName(idx)
  }

  /** The name is the custom one exactly when that is non-blank, and it is never blank. */
  lemma PersonNameChoice(customNames: map<nat, string>, idx: nat)
    ensures Trim(PersonName(customNames, idx)) != ""
    ensures idx in customNames && Trim(customNames[idx]) != "" ==> PersonName(customNames, idx) == customNames[idx]
    ensures (idx !in customNames || Trim(customNames[idx]) == "") ==> PersonName(customNames, idx) == DefaultName(idx)
  {
    var d := DefaultName(idx);
    assert d[0] == 'P';
    TrimEmptyIffBlank(d);
    if idx in customNames && Trim(customNames[idx]) != "" {
      assert customNames[idx] != "";
    }
  }

  /** The rows after the header: fileData.slice(1). */
  function DataRows(table: seq<seq<string>>): (rows: seq<seq<string>>)
    ensures table != [] ==> rows == table[1..]
    ensures table == [] ==> rows == []
  {
    if table == [] then [] else table[1..]
  }

  /** The custom names after toggling idx: its name deleted, or pre-filled from a non-blank header. */
  function ToggledNames(names: map<nat, string>, cols: seq<nat>, idx: nat, header: string): (r: map<nat, string>)
  {
    if idx in cols then names - {idx}
    else if header != "" && Trim(header) != "" then names[idx := header]
    else names
  }

  class Importer {
    /** The parsed table; its first row is the header. */
    var fileData: seq<seq<string>>
    /** The question-id column, -1 while none is chosen. */
    var questionCol: int
    /** The score columns, in the order they were ticked. */
    var scoreCols: seq<nat>
    /** Labels typed or pre-filled for score columns. */
    var customNames: map<nat, string>

    /** No column is ticked twice and only ticked columns carry a label. */
    predicate Valid()
      reads this
    {
      && questionCol >= -1
      && NoDup(scoreCols)
      && forall i :: i in customNames ==> i in scoreCols
    }

    constructor ()
      ensures Valid()
      ensures fileData == [] && questionCol == -1 && scoreCols == [] && customNames == map[]
    {
      fileData := [];
      questionCol := -1;
      scoreCols := [];
      customNames := map[];
    }

    /** The reader's onload: the table is replaced; the column choices are kept. */
    method LoadText(text: string)
      modifies this
      ensures fileData == ParseTable(text)
      ensures questionCol == old(questionCol) && scoreCols == old(scoreCols) && customNames == old(customNames)
    {
      fileData := ParseTable(text);
    }

    /** The Question # radio button of header column idx. */
    method ChooseQuestionColumn(idx: nat)
      requires Valid()
      requires fileData != [] && idx < |fileData[0]|
      modifies this
      ensures Valid()
      ensures questionCol == idx
      ensures fileData == old(fileData) && scoreCols == old(scoreCols) && customNames == old(customNames)
    {
      questionCol := idx;
    }

    /** toggleScoreCol for header column idx. */
    method ToggleScoreCol(idx: nat)
      requires Valid()
      requires fileData != [] && idx < |fileData[0]|
      modifies this
      ensures Valid()
      ensures scoreCols == Toggle(old(scoreCols), idx)
      ensures fileData != [] && idx < |fileData[0]|
      ensures customNames == ToggledNames(old(customNames), old(scoreCols), idx, fileData[0][idx])
      ensures fileData == old(fileData) && questionCol == old(questionCol)
    {
      ToggleMembership(scoreCols, idx);
      if idx in scoreCols {
        scoreCols := Without(scoreCols, idx);
        customNames := customNames - {idx};
      } else {
        scoreCols := scoreCols + [idx];
        var headerName := fileData[0][idx];
        if headerName != "" && Trim(headerName) != "" {
          customNames := customNames[idx := headerName];
        }
      }
    }

    /** updateName: the label typed for a ticked column. */
    method UpdateName(idx: nat, name: string)
      requires Valid() && idx in scoreCols
      modifies this
      ensures Valid()
      ensures customNames == old(customNames)[idx := name]
      ensures fileData == old(fileData) && questionCol == old(questionCol) && scoreCols == old(scoreCols)
    {
      customNames := customNames[idx := name];
    }

    /** What processImport records for the k-th ticked column. */
    predicate Imported(r: AssessmentResult, k: nat, catalogue: seq<Question>, stamp: nat -> Stamp)
      requires k < |scoreCols|
      reads this
    {
      && r.id == stamp(k).id
      && r.date == stamp(k).date
      && r.name == PersonName(customNames, scoreCols[k])
      && r.answers == ColumnAnswers(DataRows(fileData), questionCol, scoreCols[k])
      && r.scores == Scoring.ScoreMap(catalogue, r.answers)
      && r.macro == Scoring.MacroOf(catalogue, r.answers)
    }

    /**
     * processImport: nothing without a question column and a score column;
     * otherwise one result per ticked column, in ticking order.
     */
    method ProcessImport(catalogue: seq<Question>, stamp: nat -> Stamp) returns (imported: Option<seq<AssessmentResult>>)
      ensures imported.None? <==> questionCol == -1 || scoreCols == []
      ensures imported.Some? ==> |imported.value| == |scoreCols|
      ensures imported.Some? ==> forall k :: 0 <= k < |scoreCols| ==> Imported(imported.value[k], k, catalogue, stamp)
    {
      if questionCol == -1 || |scoreCols| == 0 {
        return None;
      }
      var dataRows := DataRows(fileData);
      var newResults: seq<AssessmentResult> := [];
      for k := 0 to |scoreCols|
        invariant |newResults| == k
        invariant forall j :: 0 <= j < k ==> Imported(newResults[j], j, catalogue, stamp)
      {
        var scoreIdx := scoreCols[k];
        var personName := PersonName(customNames, scoreIdx);
        var answers := BuildAnswers(dataRows, questionCol, scoreIdx);
        var scores := Scoring.CalculateScores(catalogue, answers);
        var macro := Scoring.CalculateMacroScores(catalogue, answers);
        newResults := newResults + [AssessmentResult(stamp(k).id, stamp(k).date, personName, answers, scores, macro)];
      }
      return Some(newResults);
    }
  }
}
