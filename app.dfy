/**
 * The state of the app shell in App.tsx: the per-question answer recording
 * of the assessment view, the category drill-down of the summary table, the
 * two-slot comparison selection of the dashboard, and the history of
 * records kept by the top-level component.
 */
module App {
  import opened Types
  import opened Seqs
  import Scoring

  // ---------------------------------------------------------------------------
  // getQuestionsForCategory (lines 194-207)
  // ---------------------------------------------------------------------------

  /** The filter test of getQuestionsForCategory: the code's groups against the category id. */
  predicate InCategory(code: string, catId: string)
  {
    var m := Scoring.MatchCode(code);
    if m.None? then false
    else
      var num, letter := m.value.digits, m.value.letter;
      if catId == "24m" then num == "24" && Scoring.LetterIn(letter, "abc")
      else if catId == "24f" then num == "24" && Scoring.LetterIn(letter, "def")
      else if catId == "24o" then num == "24" && Scoring.LetterIn(letter, "ghi")
      else num == catId
  }

  function InCategoryOf(catId: string): Question -> bool
  {
    (q: Question) => InCategory(q.code, catId)
  }

  /** The questions listed under a category row, in catalogue order. */
  function QuestionsForCategory(catalogue: seq<Question>, catId: string): (qs: seq<Question>)
    ensures forall i :: 0 <= i < |qs| ==> qs[i] in catalogue && InCategory(qs[i].code, catId)
    ensures forall i :: 0 <= i < |catalogue| && InCategory(catalogue[i].code, catId) ==> catalogue[i] in qs
  {
    FilterMembers(catalogue, InCategoryOf(catId));
    Filter(catalogue, InCategoryOf(catId))
  }

  /**
   * For every score key the drill-down repeats the scoring resolver: a code
   * is listed under key k exactly when calculateScores adds it to k.
   */
  lemma InCategoryIffBucket(code: string, k: string)
    requires k in Scoring.ScoreKeys()
    ensures InCategory(code, k) <==> Scoring.ScoreBucket(code) == Some(k)
  {
    Scoring.TwentyFourNotKey();
    var m := Scoring.MatchCode(code);
    if m.Some? {
      var num := m.value.digits;
      if |num| == 3 {
        assert num[2] != 'm' && num[2] != 'f' && num[2] != 'o';
        assert num != "24m" && num != "24f" && num != "24o";
      }
    }
  }

  /** The answer shown for a question: its value when answered, 0 otherwise. */
  function AnswerOf(answers: Answers): Question -> int
  {
    (q: Question) => if Scoring.Answered(answers, q.id) then answers[q.id] else 0
  }

  /** The answers listed under a score key add up to that key's score. */
  lemma CategoryRowsSumToScore(catalogue: seq<Question>, answers: Answers, k: string)
    requires k in Scoring.ScoreKeys()
    ensures Sum(QuestionsForCategory(catalogue, k), AnswerOf(answers)) == Scoring.ScoreMap(catalogue, answers)[k]
  {
    forall i | 0 <= i < |catalogue|
      ensures Scoring.ContributionTo(answers, k)(catalogue[i])
        == if InCategoryOf(k)(catalogue[i]) then AnswerOf(answers)(catalogue[i]) else 0
    {
      InCategoryIffBucket(catalogue[i].code, k);
    }
    SumFilter(catalogue, InCategoryOf(k), AnswerOf(answers), Scoring.ContributionTo(answers, k));
  }

  // ---------------------------------------------------------------------------
  // SummaryTable: the expanded category rows (lines 159, 162-166, 179-185)
  // ---------------------------------------------------------------------------

  class SummaryTable {
    var expandedCats: seq<string>

    predicate Valid()
      reads this
    {
      NoDup(expandedCats)
    }

    constructor ()
      ensures Valid() && expandedCats == []
    {
      expandedCats := [];
    }

    /** toggleExpand: collapse an expanded row, expand a collapsed one. */
    method ToggleExpand(id: string)
      requires Valid()
      modifies this
      ensures Valid()
      ensures expandedCats == Toggle(old(expandedCats), id)
    {
      ToggleMembership(expandedCats, id);
      if id in expandedCats {
        expandedCats := Without(expandedCats, id);
      } else {
        expandedCats := expandedCats + [id];
      }
    }

    /** The highlight effect: a highlighted category row is expanded unless it already is. */
    method Highlight(highlightId: Option<string>)
      requires Valid()
      modifies this
      ensures Valid()
      ensures highlightId.Some? && highlightId.value != "" ==> highlightId.value in expandedCats
      ensures highlightId.Some? && highlightId.value != "" && highlightId.value !in old(expandedCats) ==>
        expandedCats == old(expandedCats) + [highlightId.value]
      ensures highlightId.None? || highlightId.value == "" || highlightId.value in old(expandedCats) ==>
        expandedCats == old(expandedCats)
    {
      if highlightId.Some? && highlightId.value != "" {
        var id := highlightId.value;
        if id !in expandedCats {
          ToggleMembership(expandedCats, id);
          expandedCats := expandedCats + [id];
        }
      }
    }
  }

  // ---------------------------------------------------------------------------
  // DashboardView: selection, pruning and the shown results (lines 310-344)
  // ---------------------------------------------------------------------------

  /** toggleSelection's new list: drop a selected id, else append it, evicting the older of two. */
  function SelectionToggled(sel: seq<string>, id: string): seq<string>
  {
    if id in sel then Without(sel, id)
    else if |sel| < 2 then sel + [id]
    else [sel[1], id]
  }

  /**
   * The selection stays at most two distinct ids; the toggled id flips
   * membership; removing an id keeps the others, and a new id is appended
   * after the kept selection; when two were selected the older one is
   * evicted; nothing else enters.
   */
  lemma SelectionToggledProperties(sel: seq<string>, id: string)
    requires |sel| <= 2 && NoDup(sel)
    ensures var r := SelectionToggled(sel, id);
      && |r| <= 2 && NoDup(r)
      && (id in r <==> id !in sel)
      && (id !in sel ==> r[|r| - 1] == id)
      && (id !in sel && |sel| == 2 ==> sel[0] !in r && sel[1] in r)
      && (forall i :: 0 <= i < |r| && r[i] != id ==> r[i] in sel)
      && (id in sel || |sel| < 2 ==> forall i :: 0 <= i < |sel| && sel[i] != id ==> sel[i] in r)
      && (id !in sel && |sel| < 2 ==> r[..|r| - 1] == sel)
  {
    if id in sel || |sel| < 2 {
      ToggleMembership(sel, id);
    } else {
      assert sel[1] != id;
    }
  }

  /** history.find(h => h.id === id) finds a record. */
  predicate InHistory(history: seq<AssessmentResult>, id: string)
  {
    exists i :: 0 <= i < |history| && history[i].id == id
  }

  function InHistoryOf(history: seq<AssessmentResult>): string -> bool
  {
    id => InHistory(history, id)
  }

  function IsSelectedBy(sel: seq<string>): AssessmentResult -> bool
  {
    (h: AssessmentResult) => h.id in sel
  }

  /** history.filter(h => selectedIds.includes(h.id)): the selected records, in history order. */
  function SelectedResults(history: seq<AssessmentResult>, sel: seq<string>): seq<AssessmentResult>
  {
    Filter(history, IsSelectedBy(sel))
  }

  /** The record shown: the first selected one, else the newest; None only for an empty history. */
  function DisplayResult(history: seq<AssessmentResult>, sel: seq<string>): (r: Option<AssessmentResult>)
    ensures r.None? <==> history == []
  {
    var selected := SelectedResults(history, sel);
    if |selected| > 0 then Some(selected[0])
    else if |history| > 0 then Some(history[0])
    else None
  }

  /** The partner record: the second selected one, defined exactly when two records are selected. */
  function CompareResult(history: seq<AssessmentResult>, sel: seq<string>): (r: Option<AssessmentResult>)
    ensures r.Some? <==> |SelectedResults(history, sel)| == 2
  {
    var selected := SelectedResults(history, sel);
    if |selected| == 2 then Some(selected[1]) else None
  }

  /** With a selected record in history, the one shown is the earliest selected record in history order. */
  lemma DisplayIsFirstSelected(history: seq<AssessmentResult>, sel: seq<string>)
    requires exists i :: 0 <= i < |history| && history[i].id in sel
    ensures exists i :: (0 <= i < |history| && DisplayResult(history, sel) == Some(history[i])
                         && history[i].id in sel && forall j :: 0 <= j < i ==> history[j].id !in sel)
  {
    var i :| 0 <= i < |history| && history[i].id in sel;
    assert IsSelectedBy(sel)(history[i]);
    FilterMembers(history, IsSelectedBy(sel));
    FilterFirst(history, IsSelectedBy(sel));
  }

  /** With nothing selected, the newest record is shown. */
  lemma DisplayDefaultsToNewest(history: seq<AssessmentResult>, sel: seq<string>)
    requires history != [] && forall i :: 0 <= i < |history| ==> history[i].id !in sel
    ensures DisplayResult(history, sel) == Some(history[0])
  {
    var selected := SelectedResults(history, sel);
    FilterMembers(history, IsSelectedBy(sel));
  }

  /** In a comparison the two records are selected, distinct, and shown in history order. */
  lemma ComparisonPair(history: seq<AssessmentResult>, sel: seq<string>)
    requires CompareResult(history, sel).Some?
    ensures DisplayResult(history, sel).Some?
    ensures var d, c := DisplayResult(history, sel).value, CompareResult(history, sel).value;
      && d.id in sel && c.id in sel
      && exists i, j :: 0 <= i < j < |history| && history[i] == d && history[j] == c
  {
    var i, j := FilterOrder(history, IsSelectedBy(sel), 0, 1);
    FilterMembers(history, IsSelectedBy(sel));
  }

  class Dashboard {
    var selectedIds: seq<string>

    /** At most two distinct ids are selected. */
    predicate Valid()
      reads this
    {
      |selectedIds| <= 2 && NoDup(selectedIds)
    }

    constructor ()
      ensures Valid() && selectedIds == []
    {
      selectedIds := [];
    }

    /** toggleSelection (lines 322-332). */
    method ToggleSelection(id: string)
      requires Valid()
      modifies this
      ensures Valid()
      ensures selectedIds == SelectionToggled(old(selectedIds), id)
    {
      SelectionToggledProperties(selectedIds, id);
      if id in selectedIds {
        selectedIds := Without(selectedIds, id);
      } else {
        if |selectedIds| < 2 {
          selectedIds := selectedIds + [id];
        } else {
          selectedIds := [selectedIds[1], id];
        }
      }
    }

    /** The effect of lines 315-320: keep, in order, the selected ids still found in history. */
    method PruneSelection(history: seq<AssessmentResult>)
      requires Valid()
      modifies this
      ensures Valid()
      ensures selectedIds == Filter(old(selectedIds), InHistoryOf(history))
    {
      var validIds := Filter(selectedIds, InHistoryOf(history));
      FilterNoDup(selectedIds, InHistoryOf(history));
      if |validIds| != |selectedIds| {
        selectedIds := validIds;
      } else {
        FilterKeepsAll(selectedIds, InHistoryOf(history));
      }
    }
  }

  // ---------------------------------------------------------------------------
  // AssessmentView: one answer per question (lines 85-100)
  // ---------------------------------------------------------------------------

  class AssessmentFlow {
    const catalogue: seq<Question>
    var currentIdx: nat
    var answers: Answers

    /** The index is on a question, answers are Likert values, and every earlier question is answered. */
    predicate Valid()
      reads this
    {
      && currentIdx < |catalogue|
      && LikertAnswers(answers)
      && forall i :: 0 <= i < currentIdx ==> catalogue[i].id in answers
    }

    constructor (catalogue: seq<Question>)
      requires catalogue != []
      ensures Valid()
      ensures this.catalogue == catalogue && currentIdx == 0 && answers == map[]
    {
      this.catalogue := catalogue;
      currentIdx := 0;
      answers := map[];
    }

    /**
     * handleAnswer: record val for the current question, then advance, or
     * complete with the answers at the last question.
     */
    method HandleAnswer(val: int) returns (completed: Option<Answers>)
      requires Valid() && 1 <= val <= 4
      modifies this
      ensures Valid()
      ensures answers == old(answers)[catalogue[old(currentIdx)].id := val]
      ensures old(currentIdx) < |catalogue| - 1 ==> currentIdx == old(currentIdx) + 1 && completed.None?
      ensures old(currentIdx) == |catalogue| - 1 ==> currentIdx == old(currentIdx) && completed == Some(answers)
      ensures completed.Some? ==>
        LikertAnswers(completed.value) && forall i :: 0 <= i < |catalogue| ==> catalogue[i].id in completed.value
    {
      var activeQuestion := catalogue[currentIdx];
      var nextAnswers := answers[activeQuestion.id := val];
      answers := nextAnswers;
      if currentIdx < |catalogue| - 1 {
        currentIdx := currentIdx + 1;
        completed := None;
      } else {
        completed := Some(nextAnswers);
      }
    }
  }

  // ---------------------------------------------------------------------------
  // The top-level component: the history of records (lines 519-566)
  // ---------------------------------------------------------------------------

  datatype View = Home | Assessment | Results | HistoryView | Import

  function KeepsOtherIds(id: string): AssessmentResult -> bool
  {
    (h: AssessmentResult) => h.id != id
  }

  /** history.filter(h => h.id !== id). */
  function Deleted(history: seq<AssessmentResult>, id: string): seq<AssessmentResult>
  {
    Filter(history, KeepsOtherIds(id))
  }

  /** No record with the id survives a delete, every other record does, and no id is added. */
  lemma DeletedProperties(history: seq<AssessmentResult>, id: string)
    ensures !InHistory(Deleted(history, id), id)
    ensures forall i :: 0 <= i < |history| && history[i].id != id ==> history[i] in Deleted(history, id)
    ensures forall other :: InHistory(Deleted(history, id), other) ==> InHistory(history, other)
  {
    var r := Deleted(history, id);
    FilterMembers(history, KeepsOtherIds(id));
    forall other | InHistory(r, other) ensures InHistory(history, other) {
      var i :| 0 <= i < |r| && r[i].id == other;
      assert r[i] in history;
    }
  }

  /** Deleting an id no record has changes nothing. */
  lemma DeleteAbsent(history: seq<AssessmentResult>, id: string)
    requires !InHistory(history, id)
    ensures Deleted(history, id) == history
  {
    FilterAll(history, KeepsOtherIds(id));
  }

  /** Deleting the id of a freshly prepended record whose id is new undoes the prepend. */
  lemma DeleteUndoesPrepend(r: AssessmentResult, history: seq<AssessmentResult>)
    requires !InHistory(history, r.id)
    ensures Deleted([r] + history, r.id) == history
  {
    FilterConcat([r], history, KeepsOtherIds(r.id));
    assert Filter([r], KeepsOtherIds(r.id)) == [] by {
      assert [r][1..] == [];
    }
    DeleteAbsent(history, r.id);
  }

  /** After a delete, pruning drops the deleted id from the selection and keeps the rest in order. */
  lemma PruneAfterDelete(history: seq<AssessmentResult>, sel: seq<string>, id: string)
    ensures id !in Filter(sel, InHistoryOf(Deleted(history, id)))
  {
    DeletedProperties(history, id);
    FilterMembers(sel, InHistoryOf(Deleted(history, id)));
  }

  class AppShell {
    var view: View
    var name: string
    var history: seq<AssessmentResult>

    /** The initial state; saved stands for the history read back from storage. */
    constructor (saved: seq<AssessmentResult>)
      ensures view == Home && name == "" && history == saved
    {
      view := Home;
      name := "";
      history := saved;
    }

    /** handleStart. */
    method HandleStart(userName: string)
      modifies this
      ensures name == userName && view == Assessment && history == old(history)
    {
      name := userName;
      view := Assessment;
    }

    /** handleComplete: one new record, first in the history; stamp supplies its id and date. */
    method HandleComplete(catalogue: seq<Question>, answers: Answers, stamp: Stamp)
      modifies this
      ensures |history| == |old(history)| + 1 && history[1..] == old(history)
      ensures history[0] == AssessmentResult(stamp.id, stamp.date, name, answers,
        Scoring.ScoreMap(catalogue, answers), Scoring.MacroOf(catalogue, answers))
      ensures name == old(name) && view == HistoryView
    {
      var scores := Scoring.CalculateScores(catalogue, answers);
      var macro := Scoring.CalculateMacroScores(catalogue, answers);
      var newResult := AssessmentResult(stamp.id, stamp.date, name, answers, scores, macro);
      history := [newResult] + history;
      view := HistoryView;
    }

    /** handleImport: the batch, in its order, ahead of the earlier records. */
    method HandleImport(results: seq<AssessmentResult>)
      modifies this
      ensures history == results + old(history)
      ensures history[|results|..] == old(history)
      ensures name == old(name) && view == HistoryView
    {
      history := results + history;
      view := HistoryView;
    }

    /** handleDelete, once confirmed. */
    method HandleDelete(id: string)
      modifies this
      ensures history == Deleted(old(history), id)
      ensures name == old(name) && view == old(view)
    {
      history := Filter(history, KeepsOtherIds(id));
    }
  }
}
