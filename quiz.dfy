/**
 * The quiz screen: the questions of one category are loaded once, the user
 * moves between them with Prev and Next while each question remembers the
 * radio button last selected on it, and Submit counts the correct answers,
 * appends one row to the results table and opens the result screen.
 */
module Quiz {
  import ResultView

  /** The screen has four radio buttons, one per answer option. */
  const ButtonCount: nat := 4

  /** The source's `Option` record: one answer option of a question. */
  datatype AnswerOption = AnswerOption(id: int, text: string, isCorrect: bool)

  /** The source's `Question` record; `selectedIndex` is -1 while unanswered. */
  datatype Question = Question(id: int, text: string, options: seq<AnswerOption>, selectedIndex: int)

  /** A row of the results table. */
  datatype ResultRow = ResultRow(userId: int, categoryId: int, score: int)

  /** An options row as the query returns it; `isCorrect` is the integer column. */
  datatype FetchedOption = FetchedOption(id: int, text: string, isCorrect: int)

  /** A questions row together with the options rows fetched for it. */
  datatype FetchedQuestion = FetchedQuestion(id: int, text: string, options: seq<FetchedOption>)

  /** The options of a fetched question, with `is_correct == 1` read as true. */
  function ToOptions(fs: seq<FetchedOption>): (r: seq<AnswerOption>)
    ensures |r| == |fs|
    ensures forall i :: 0 <= i < |fs| ==>
      r[i].id == fs[i].id && r[i].text == fs[i].text && (r[i].isCorrect <==> fs[i].isCorrect == 1)
  {
    if fs == [] then []
    else ToOptions(fs[..|fs| - 1]) + [AnswerOption(fs[|fs| - 1].id, fs[|fs| - 1].text, fs[|fs| - 1].isCorrect == 1)]
  }

  /** The questions built from the fetched rows, in order and all unanswered. */
  function Loaded(rows: seq<FetchedQuestion>): (r: seq<Question>)
    ensures |r| == |rows|
    ensures forall i :: 0 <= i < |rows| ==>
      r[i] == Question(rows[i].id, rows[i].text, ToOptions(rows[i].options), -1)
  {
    if rows == [] then []
    else
      var last := rows[|rows| - 1];
      Loaded(rows[..|rows| - 1]) + [Question(last.id, last.text, ToOptions(last.options), -1)]
  }

  /** The question's saved answer is an option flagged correct. */
  predicate AnsweredCorrectly(q: Question) {
    0 <= q.selectedIndex < |q.options| && q.options[q.selectedIndex].isCorrect
  }

  /** The number of questions answered correctly. */
  function CorrectCount(qs: seq<Question>): (n: nat)
    ensures n <= |qs|
  {
    if qs == [] then 0
    else CorrectCount(qs[..|qs| - 1]) + (if AnsweredCorrectly(qs[|qs| - 1]) then 1 else 0)
  }

  /** The radio group as Swing keeps it: at most one selected button, all of them among the four. */
  predicate GroupValid(selected: set<int>) {
    (forall i :: i in selected ==> 0 <= i < ButtonCount) && |selected| <= 1
  }

  /** What saving records: the lowest selected button, or -1 when none is selected. */
  function SavedIndex(selected: set<int>): (k: int)
    ensures -1 <= k < ButtonCount
    ensures k == -1 <==> forall i :: 0 <= i < ButtonCount ==> i !in selected
    ensures k != -1 ==> k in selected && forall i :: 0 <= i < k ==> i !in selected
  {
    if 0 in selected then 0
    else if 1 in selected then 1
    else if 2 in selected then 2
    else if 3 in selected then 3
    else -1
  }

  /** What showing a question selects after clearing the group: its saved button, if it is one of the four. */
  function Restored(k: int): (selected: set<int>)
    ensures GroupValid(selected)
    ensures selected == {} <==> !(0 <= k < ButtonCount)
  {
    if 0 <= k < ButtonCount then {k} else {}
  }

  /** The question list after saving selection `selected` on question `c`. */
  function WithAnswer(qs: seq<Question>, c: int, selected: set<int>): (r: seq<Question>)
    requires 0 <= c < |qs|
    ensures |r| == |qs| && r[c].selectedIndex == SavedIndex(selected)
    ensures r[c].id == qs[c].id && r[c].text == qs[c].text && r[c].options == qs[c].options
    ensures forall i :: 0 <= i < |qs| && i != c ==> r[i] == qs[i]
  {
    qs[c := qs[c].(selectedIndex := SavedIndex(selected))]
  }

  /** The text of radio button `i` for a question with these options. */
  function ButtonLabel(options: seq<AnswerOption>, i: nat): string {
    if i < |options| then options[i].text else ""
  }

  class QuizSession {
    const userId: int
    const categoryId: int
    var questions: seq<Question>
    var cursor: int
    var score: int
    /** The position of the question the label shows, -1 before any is shown. */
    var shown: int
    /** The texts of the four radio buttons. */
    const buttons: array<string>
    /** The radio group: the indices of the selected buttons. */
    var selected: set<int>
    /** The results table. */
    var results: seq<ResultRow>

    ghost predicate Valid()
      reads this
    {
      && buttons.Length == ButtonCount
      && GroupValid(selected)
      && 0 <= cursor && (if questions == [] then cursor == 0 else cursor < |questions|)
      && (forall i :: 0 <= i < |questions| ==> -1 <= questions[i].selectedIndex < ButtonCount)
      && 0 <= score <= |questions|
    }

    /** The screen shows question `idx`: its label, its option texts and its saved selection. */
    ghost predicate Showing(idx: int)
      reads this, buttons
      requires Valid()
    {
      && 0 <= idx < |questions| && shown == idx
      && selected == Restored(questions[idx].selectedIndex)
      && forall i :: 0 <= i < ButtonCount ==> buttons[i] == ButtonLabel(questions[idx].options, i)
    }

    /** Opening the quiz: load the category's questions, build the buttons, show the first question. */
    constructor (userId: int, categoryId: int, rows: seq<FetchedQuestion>, results: seq<ResultRow>)
      ensures Valid() && fresh(buttons)
      ensures this.userId == userId && this.categoryId == categoryId
      ensures questions == Loaded(rows) && cursor == 0 && score == 0 && this.results == results
      ensures questions != [] ==> Showing(0) && selected == {}
      ensures questions == [] ==> shown == -1 && selected == {}
    {
      this.userId := userId;
      this.categoryId := categoryId;
      questions := [];
      cursor := 0;
      score := 0;
      shown := -1;
      buttons := new string[ButtonCount];
      selected := {};
      this.results := results;
      new;
      LoadQuestions(rows);
      ShowQuestion(0);
    }

    /** `loadQuestions`: append one unanswered question per fetched row, converting its options. */
    method LoadQuestions(rows: seq<FetchedQuestion>)
      requires Valid() && cursor == 0
      modifies this
      ensures Valid()
      ensures questions == old(questions) + Loaded(rows)
      ensures cursor == old(cursor) && score == old(score) && shown == old(shown)
      ensures selected == old(selected) && results == old(results)
    {
      var n := 0;
      while n < |rows|
        invariant 0 <= n <= |rows|
        invariant questions == old(questions) + Loaded(rows[..n])
        invariant cursor == old(cursor) && score == old(score) && shown == old(shown)
        invariant selected == old(selected) && results == old(results)
        invariant Valid()
      {
        var row := rows[n];
        var options: seq<AnswerOption> := [];
        var j := 0;
        while j < |row.options|
          invariant 0 <= j <= |row.options|
          invariant options == ToOptions(row.options[..j])
        {
          var f := row.options[j];
          options := options + [AnswerOption(f.id, f.text, f.isCorrect == 1)];
          assert row.options[..j + 1][..j] == row.options[..j];
          j := j + 1;
        }
        assert row.options[..j] == row.options;
        questions := questions + [Question(row.id, row.text, options, -1)];
        assert rows[..n + 1][..n] == rows[..n];
        n := n + 1;
      }
      assert rows[..n] == rows;
    }

    /** `showQuestion`: clear the group, label the buttons, then restore the saved selection. */
    method ShowQuestion(idx: int)
      requires Valid()
      requires questions == [] || 0 <= idx < |questions|
      modifies this, buttons
      ensures Valid()
      ensures questions == old(questions) && cursor == old(cursor) && score == old(score) && results == old(results)
      ensures old(questions) == [] ==> shown == old(shown) && selected == old(selected) && buttons[..] == old(buttons[..])
      ensures old(questions) != [] ==> Showing(idx)
    {
      if questions == [] {
        return;
      }
      var q := questions[idx];
      shown := idx;
      selected := {};
      for i := 0 to ButtonCount
        invariant forall k :: 0 <= k < i ==> buttons[k] == ButtonLabel(q.options, k)
        modifies buttons
      {
        if i < |q.options| {
          buttons[i] := q.options[i].text;
        } else {
          buttons[i] := "";
        }
      }
      if 0 <= q.selectedIndex < ButtonCount {
        selected := {q.selectedIndex};
      }
    }

    /** The user clicks radio button `i`; the group deselects the others. */
    method Select(i: int)
      requires Valid() && 0 <= i < ButtonCount
      modifies this
      ensures Valid() && selected == {i}
      ensures questions == old(questions) && cursor == old(cursor) && score == old(score)
      ensures shown == old(shown) && results == old(results)
    {
      selected := {i};
    }

    /** `saveAnswer`: record the lowest selected button on the current question, or -1. */
    method SaveAnswer()
      requires Valid() && questions != []
      modifies this
      ensures Valid()
      ensures questions == WithAnswer(old(questions), old(cursor), old(selected))
      ensures cursor == old(cursor) && score == old(score) && shown == old(shown)
      ensures selected == old(selected) && results == old(results)
    {
      var q := questions[cursor];
      for i := 0 to ButtonCount
        invariant forall j :: 0 <= j < i ==> j !in selected
        invariant questions == old(questions)
      {
        if i in selected {
          questions := questions[cursor := q.(selectedIndex := i)];
          return;
        }
      }
      questions := questions[cursor := q.(selectedIndex := -1)];
    }

    /** The Prev button: only when not on the first question, save the answer, step back and show. */
    method Prev()
      requires Valid()
      modifies this, buttons
      ensures Valid() && score == old(score) && results == old(results)
      ensures old(cursor) > 0 ==>
        && questions == WithAnswer(old(questions), old(cursor), old(selected))
        && cursor == old(cursor) - 1 && Showing(cursor)
      ensures old(cursor) == 0 ==> unchanged(this) && unchanged(buttons)
    {
      if cursor > 0 {
        SaveAnswer();
        cursor := cursor - 1;
        ShowQuestion(cursor);
      }
    }

    /** The Next button: only when not on the last question, save the answer, step forward and show. */
    method Next()
      requires Valid()
      modifies this, buttons
      ensures Valid() && score == old(score) && results == old(results)
      ensures old(cursor) < |old(questions)| - 1 ==>
        && questions == WithAnswer(old(questions), old(cursor), old(selected))
        && cursor == old(cursor) + 1 && Showing(cursor)
      ensures old(cursor) >= |old(questions)| - 1 ==> unchanged(this) && unchanged(buttons)
    {
      if cursor < |questions| - 1 {
        SaveAnswer();
        cursor := cursor + 1;
        ShowQuestion(cursor);
      }
    }

    /** `computeScoreAndSave`: count from zero, then insert one results row unless the insert fails. */
    method ComputeScoreAndSave(dbUp: bool)
      requires Valid()
      modifies this
      ensures Valid()
      ensures score == CorrectCount(questions)
      ensures results == old(results) + if dbUp then [ResultRow(userId, categoryId, score)] else []
      ensures questions == old(questions) && cursor == old(cursor)
      ensures shown == old(shown) && selected == old(selected)
    {
      score := 0;
      var i := 0;
      while i < |questions|
        invariant 0 <= i <= |questions|
        invariant score == CorrectCount(questions[..i])
        invariant questions == old(questions) && cursor == old(cursor) && results == old(results)
        invariant shown == old(shown) && selected == old(selected)
      {
        var q := questions[i];
        if q.selectedIndex >= 0 && q.selectedIndex < |q.options| {
          if q.options[q.selectedIndex].isCorrect {
            score := score + 1;
          }
        }
        assert questions[..i + 1][..i] == questions[..i];
        i := i + 1;
      }
      assert questions[..i] == questions;
      if dbUp {
        results := results + [ResultRow(userId, categoryId, score)];
      }
    }

    /**
     * The Submit button: save the current answer, score the quiz, record the
     * result and hand the score and the number of questions to the result screen.
     */
    method Submit(dbUp: bool) returns (summary: ResultView.Summary)
      requires Valid() && questions != []
      modifies this
      ensures Valid()
      ensures questions == WithAnswer(old(questions), old(cursor), old(selected))
      ensures score == CorrectCount(questions)
      ensures results == old(results) + if dbUp then [ResultRow(userId, categoryId, score)] else []
      ensures cursor == old(cursor) && shown == old(shown) && selected == old(selected)
      ensures summary == ResultView.Show(score, |questions|)
      ensures summary.score == score && summary.total == |questions|
      ensures 0 <= summary.percent <= 100
    {
      SaveAnswer();
      ComputeScoreAndSave(dbUp);
      summary := ResultView.Show(score, |questions|);
      ResultView.PercentageInRange(score, |questions|);
    }
  }

  /** Leaving a question and coming back shows the selection it had. */
  method RevisitKeepsSelection(s: QuizSession)
    requires s.Valid() && s.cursor < |s.questions| - 1
    modifies s, s.buttons
    ensures s.Valid() && s.cursor == old(s.cursor) && s.selected == old(s.selected)
  {
    s.Next();
    s.Prev();
    RestoreAfterSave(old(s.selected));
  }

  /** Re-showing a saved selection gives back the same group state. */
  lemma RestoreAfterSave(selected: set<int>)
    requires GroupValid(selected)
    ensures Restored(SavedIndex(selected)) == selected
  {
    var k := SavedIndex(selected);
    if k == -1 {
      assert forall y :: y !in selected;
    } else {
      var rest := selected - {k};
      assert selected == rest + {k} && k !in rest;
      assert |rest| == 0;
      assert selected == {k};
    }
  }

  /** Saving the selection a question was shown with records the same answer. */
  lemma SaveAfterRestore(k: int)
    requires -1 <= k < ButtonCount
    ensures SavedIndex(Restored(k)) == k
  {
  }

  /** A full score means every question was answered correctly, and conversely. */
  lemma {:induction false} FullScore(qs: seq<Question>)
    ensures CorrectCount(qs) == |qs| <==> forall i :: 0 <= i < |qs| ==> AnsweredCorrectly(qs[i])
  {
    if qs != [] {
      var init := qs[..|qs| - 1];
      FullScore(init);
      assert forall i :: 0 <= i < |init| ==> init[i] == qs[i];
    }
  }

  /** The score is zero exactly when no question is answered correctly. */
  lemma {:induction false} ZeroScore(qs: seq<Question>)
    ensures CorrectCount(qs) == 0 <==> forall i :: 0 <= i < |qs| ==> !AnsweredCorrectly(qs[i])
  {
    if qs != [] {
      var init := qs[..|qs| - 1];
      ZeroScore(init);
      assert forall i :: 0 <= i < |init| ==> init[i] == qs[i];
    }
  }

  /** Unanswered questions count as wrong: a freshly loaded quiz scores zero. */
  lemma LoadedScoresZero(rows: seq<FetchedQuestion>)
    ensures CorrectCount(Loaded(rows)) == 0
  {
    ZeroScore(Loaded(rows));
  }
}
