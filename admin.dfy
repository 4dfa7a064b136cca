/**
 * The admin panel: categories are added and renamed by name, and a question
 * is saved from a dialog with one text area, four option fields and four
 * "Correct" radio buttons. Saving checks the inputs, then rewrites the
 * question and its four option rows inside one transaction; editing first
 * loads the stored question back into the dialog.
 */
module Admin {
  import opened Wrappers
  import opened JavaText

  /** The dialog has four option fields and four "Correct" buttons. */
  const FieldCount: nat := 4

  datatype CategoryRow = CategoryRow(id: int, name: string)
  datatype QuestionRow = QuestionRow(id: int, categoryId: int, text: string)
  /** A row of the options table; `isCorrect` is the integer column (1 for the correct option). */
  datatype OptionRow = OptionRow(id: int, questionId: int, text: string, isCorrect: int)

  /** The source's `OptionDetails`: one loaded option. */
  datatype OptionDetails = OptionDetails(text: string, isCorrect: bool)

  /** What the category buttons end in. */
  datatype CategoryOutcome = NoCategorySelected | NameMissing | CategoryDbError | CategoryStored

  /** The checks of the Save button, in the order the handler makes them. */
  datatype Validation =
    | EmptyQuestion                 // "Enter question text"
    | EmptyOption(index: nat)       // "Fill all option fields"
    | NoCorrectOption               // "Select correct option"
    | Accepted(questionText: string, optionTexts: seq<string>, correctIdx: nat)

  /** What the Save button ends in. */
  datatype SaveOutcome = Rejected(reason: Validation) | RolledBack | Committed(questionId: int)

  // ---------------------------------------------------------------------
  // The statements the panel sends, as functions on the tables
  // ---------------------------------------------------------------------

  /** What the save transaction ends in: a rollback when the database fails or an insert yields no key. */
  function SaveResult(nextQuestionId: int, qid: Option<int>, dbUp: bool, keyReturned: bool): (r: SaveOutcome)
    ensures r.RolledBack? <==> !dbUp || (qid.None? && !keyReturned)
    ensures r.Committed? <==> dbUp && (qid.Some? || keyReturned)
    ensures r.Committed? ==> r.questionId == if qid.None? then nextQuestionId else qid.value
  {
    if !dbUp || (qid.None? && !keyReturned) then RolledBack
    else Committed(if qid.None? then nextQuestionId else qid.value)
  }

  /** Option ids grow along the table, so table order is id order. */
  predicate Increasing(os: seq<OptionRow>) {
    forall i, j :: 0 <= i < j < |os| ==> os[i].id < os[j].id
  }

  /** `SELECT ... FROM options WHERE question_id = ?`, in table order. */
  function OptionsOf(os: seq<OptionRow>, qid: int): (r: seq<OptionRow>)
    ensures |r| <= |os|
    ensures forall o :: o in r <==> o in os && o.questionId == qid
  {
    if os == [] then []
    else (if os[0].questionId == qid then [os[0]] else []) + OptionsOf(os[1..], qid)
  }

  /** The table after `DELETE FROM options WHERE question_id = ?`. */
  function WithoutOptionsOf(os: seq<OptionRow>, qid: int): (r: seq<OptionRow>)
    ensures |r| <= |os|
    ensures forall o :: o in r <==> o in os && o.questionId != qid
  {
    if os == [] then []
    else (if os[0].questionId != qid then [os[0]] else []) + WithoutOptionsOf(os[1..], qid)
  }

  /** `LIMIT n`: the first `n` rows at most. */
  function Take<T>(rows: seq<T>, n: nat): (r: seq<T>)
    ensures |r| == if |rows| <= n then |rows| else n
    ensures r == rows[..|r|]
  {
    if |rows| <= n then rows else rows[..n]
  }

  /** `SELECT text FROM questions WHERE id = ?`: the first row with that id. */
  function FindQuestion(qs: seq<QuestionRow>, id: int): (r: Option<QuestionRow>)
    ensures r.None? <==> forall i :: 0 <= i < |qs| ==> qs[i].id != id
    ensures r.Some? ==> exists k :: (0 <= k < |qs| && qs[k] == r.value && r.value.id == id
      && forall i :: 0 <= i < k ==> qs[i].id != id)
  {
    if qs == [] then None
    else if qs[0].id == id then Some(qs[0])
    else
      var r := FindQuestion(qs[1..], id);
      assert r.Some? ==> forall i :: 0 <= i < |qs[1..]| ==> qs[1..][i] == qs[i + 1];
      r
  }

  /** `UPDATE questions SET text = ? WHERE id = ?`. */
  function Retexted(qs: seq<QuestionRow>, id: int, text: string): (r: seq<QuestionRow>)
    ensures |r| == |qs|
    ensures forall i :: 0 <= i < |qs| ==> r[i] == if qs[i].id == id then qs[i].(text := text) else qs[i]
  {
    seq(|qs|, i requires 0 <= i < |qs| => if qs[i].id == id then qs[i].(text := text) else qs[i])
  }

  /** `UPDATE categories SET name = ? WHERE id = ?`: the same statement as `Retexted`, on the categories table. */
  function Renamed(cs: seq<CategoryRow>, id: int, name: string): (r: seq<CategoryRow>)
    ensures |r| == |cs|
    ensures forall i :: 0 <= i < |cs| ==> r[i] == if cs[i].id == id then cs[i].(name := name) else cs[i]
  {
    seq(|cs|, i requires 0 <= i < |cs| => if cs[i].id == id then cs[i].(name := name) else cs[i])
  }

  /** The four option rows the save inserts, numbered from `firstId`, flagged 1 only at `correctIdx`. */
  function NewOptions(qid: int, texts: seq<string>, correctIdx: nat, firstId: int): (r: seq<OptionRow>)
    requires |texts| == FieldCount
    ensures |r| == FieldCount
    ensures forall i :: 0 <= i < FieldCount ==>
      && r[i].id == firstId + i && r[i].questionId == qid && r[i].text == texts[i]
      && (r[i].isCorrect == 1 <==> i == correctIdx) && (r[i].isCorrect == 0 <==> i != correctIdx)
  {
    seq(FieldCount, i requires 0 <= i < FieldCount => OptionRow(firstId + i, qid, texts[i], if i == correctIdx then 1 else 0))
  }

  /** The loaded options: text, and `is_correct == 1` read as true. */
  function DetailsOf(rows: seq<OptionRow>): (r: seq<OptionDetails>)
    ensures |r| == |rows|
    ensures forall i :: 0 <= i < |rows| ==> r[i] == OptionDetails(rows[i].text, rows[i].isCorrect == 1)
  {
    if rows == [] then []
    else DetailsOf(rows[..|rows| - 1]) + [OptionDetails(rows[|rows| - 1].text, rows[|rows| - 1].isCorrect == 1)]
  }

  /** What the edit dialog loads for a question: its options ordered by id, at most four. */
  function LoadedOptions(os: seq<OptionRow>, qid: int): (r: seq<OptionDetails>)
    ensures |r| <= FieldCount
  {
    DetailsOf(Take(OptionsOf(os, qid), FieldCount))
  }

  // ---------------------------------------------------------------------
  // The Save button's checks
  // ---------------------------------------------------------------------

  /** The first blank field, if any. */
  function FirstBlank(fields: seq<string>): (r: Option<nat>)
    ensures r.None? <==> forall i :: 0 <= i < |fields| ==> !IsBlank(fields[i])
    ensures r.Some? ==> (r.value < |fields| && IsBlank(fields[r.value])
      && forall j :: 0 <= j < r.value ==> !IsBlank(fields[j]))
  {
    if fields == [] then None
    else if IsBlank(fields[0]) then Some(0)
    else match FirstBlank(fields[1..])
      case None => None
      case Some(k) => Some(k + 1)
  }

  /** The last of the buttons `0 .. n-1` that is marked. */
  function LastMarked(marks: set<int>, n: nat): (r: Option<nat>)
    ensures r.None? <==> forall i :: 0 <= i < n ==> i !in marks
    ensures r.Some? ==> (r.value < n && r.value in marks && forall j :: r.value < j < n ==> j !in marks)
  {
    if n == 0 then None
    else if n - 1 in marks then Some(n - 1)
    else LastMarked(marks, n - 1)
  }

  /**
   * The Save button's checks: question text first, then the option fields in
   * order, then the "Correct" mark; an accepted input carries the trimmed
   * texts and the last marked button.
   */
  function Validate(text: string, fields: seq<string>, marks: set<int>): (v: Validation)
    requires |fields| == FieldCount
    ensures v == EmptyQuestion <==> IsBlank(text)
    ensures v.EmptyOption? ==> (!IsBlank(text) && v.index < FieldCount && IsBlank(fields[v.index])
      && forall j :: 0 <= j < v.index ==> !IsBlank(fields[j]))
    ensures v.NoCorrectOption? || v.Accepted? <==>
      !IsBlank(text) && forall i :: 0 <= i < FieldCount ==> !IsBlank(fields[i])
    ensures v.NoCorrectOption? ==> forall i :: 0 <= i < FieldCount ==> i !in marks
    ensures v.Accepted? ==>
      && v.questionText == Trim(text) && v.questionText != []
      && |v.optionTexts| == FieldCount
      && (forall i :: 0 <= i < FieldCount ==> v.optionTexts[i] == Trim(fields[i]) && v.optionTexts[i] != [])
      && v.correctIdx < FieldCount && v.correctIdx in marks
      && (forall j :: v.correctIdx < j < FieldCount ==> j !in marks)
  {
    if IsBlank(text) then EmptyQuestion
    else match FirstBlank(fields)
      case Some(i) => EmptyOption(i)
      case None =>
        match LastMarked(marks, FieldCount)
        case None => NoCorrectOption
        case Some(c) => Accepted(Trim(text), seq(FieldCount, i requires 0 <= i < FieldCount => Trim(fields[i])), c)
  }

  /** The save handler's check loop: fill `optStr` with trimmed fields and track the last marked index. */
  method ValidateInput(text: string, fields: seq<string>, marks: set<int>) returns (v: Validation)
    requires |fields| == FieldCount
    ensures v == Validate(text, fields, marks)
  {
    var qStr := Trim(text);
    if qStr == [] {
      return EmptyQuestion;
    }
    var optStr := new string[FieldCount];
    var correctIdx := -1;
    for i := 0 to FieldCount
      invariant forall k :: 0 <= k < i ==> optStr[k] == Trim(fields[k]) && optStr[k] != []
      invariant correctIdx == match LastMarked(marks, i) case Some(k) => k case None => -1
    {
      optStr[i] := Trim(fields[i]);
      if optStr[i] == [] {
        return EmptyOption(i);
      }
      if i in marks {
        correctIdx := i;
      }
    }
    if correctIdx == -1 {
      return NoCorrectOption;
    }
    v := Accepted(qStr, optStr[..], correctIdx);
  }

  // ---------------------------------------------------------------------
  // The edit-load path
  // ---------------------------------------------------------------------

  /** The last of the first `n` loaded options flagged correct. */
  function LastCorrect(options: seq<OptionDetails>, n: nat): (r: Option<nat>)
    ensures r.None? <==> forall i :: 0 <= i < n && i < |options| ==> !options[i].isCorrect
    ensures r.Some? ==> (r.value < n && r.value < |options| && options[r.value].isCorrect
      && forall j :: r.value < j < n && j < |options| ==> !options[j].isCorrect)
  {
    if n == 0 then None
    else if n - 1 < |options| && options[n - 1].isCorrect then Some(n - 1)
    else LastCorrect(options, n - 1)
  }

  /**
   * The radio group after the edit-load loop has handled options `0 .. n-1`:
   * `setSelected(true)` selects that button alone, `setSelected(false)` cannot
   * turn a grouped button off.
   */
  function MarksUpTo(options: seq<OptionDetails>, n: nat, before: set<int>): set<int> {
    match LastCorrect(options, n)
    case Some(k) => {k}
    case None => before
  }

  /** The radio group after the whole edit-load loop: only the first four options reach a button. */
  function MarksAfterLoad(options: seq<OptionDetails>, before: set<int>): set<int> {
    MarksUpTo(options, FieldCount, before)
  }

  /** One more option handled by the loop changes the group only when it is flagged correct. */
  lemma MarksStep(options: seq<OptionDetails>, n: nat, before: set<int>)
    requires n < |options|
    ensures MarksUpTo(options, n + 1, before) == if options[n].isCorrect then {n} else MarksUpTo(options, n, before)
  {
  }

  /** The source's `QuestionDetails`: a question and the options loaded for it. */
  class QuestionDetails {
    const id: Option<int>
    const questionText: string
    var options: seq<OptionDetails>

    constructor (id: Option<int>, questionText: string)
      ensures this.id == id && this.questionText == questionText && options == []
    {
      this.id := id;
      this.questionText := questionText;
      options := [];
    }

    method AddOption(text: string, isCorrect: bool)
      modifies this
      ensures options == old(options) + [OptionDetails(text, isCorrect)]
    {
      options := options + [OptionDetails(text, isCorrect)];
    }
  }

  /** The add/edit dialog: question text, four option fields and the "Correct" radio group. */
  class QuestionDialog {
    const categoryId: int
    const questionId: Option<int>
    var questionText: string
    const fields: array<string>
    var marks: set<int>

    ghost predicate Valid()
      reads this
    {
      fields.Length == FieldCount && (forall i :: i in marks ==> 0 <= i < FieldCount) && |marks| <= 1
    }

    constructor (categoryId: int, questionId: Option<int>)
      ensures Valid() && fresh(fields)
      ensures this.categoryId == categoryId && this.questionId == questionId
      ensures questionText == [] && marks == {}
      ensures forall i :: 0 <= i < FieldCount ==> fields[i] == []
    {
      this.categoryId := categoryId;
      this.questionId := questionId;
      questionText := [];
      fields := new string[FieldCount](_ => []);
      marks := {};
    }

    /** The edit-load loop: a running counter `i` writes only the first four options into the fields. */
    method LoadForEdit(details: QuestionDetails)
      requires Valid()
      modifies this, fields
      ensures Valid()
      ensures questionText == details.questionText
      ensures forall i :: 0 <= i < FieldCount ==>
        fields[i] == if i < |details.options| then details.options[i].text else old(fields[i])
      ensures marks == MarksAfterLoad(details.options, old(marks))
    {
      questionText := details.questionText;
      var options := details.options;
      var i := 0;
      while i < |options|
        invariant 0 <= i <= |options|
        invariant Valid() && questionText == details.questionText
        invariant forall k :: 0 <= k < FieldCount ==>
          fields[k] == if k < i && k < |options| then options[k].text else old(fields[k])
        invariant marks == MarksUpTo(options, if i < FieldCount then i else FieldCount, old(marks))
      {
        if i < FieldCount {
          MarksStep(options, i, old(marks));
          fields[i] := options[i].text;
          if options[i].isCorrect {
            marks := {i};
          }
        }
        i := i + 1;
      }
    }

    /**
     * The Save button: run the checks, then hand an accepted input to the
     * store's transaction.
     */
    method Save(store: AdminStore, dbUp: bool, keyReturned: bool) returns (r: SaveOutcome)
      requires Valid() && store.Valid()
      modifies store
      ensures store.Valid()
      ensures var v := Validate(questionText, fields[..], marks);
        && (!v.Accepted? ==> r == Rejected(v) && unchanged(store))
        && (v.Accepted? ==> r == SaveResult(old(store.nextQuestionId), questionId, dbUp, keyReturned))
        && (v.Accepted? && r.Committed? ==>
              store.SavedState(old(store.questions), old(store.options), old(store.nextOptionId),
                categoryId, questionId, r.questionId, v.questionText, v.optionTexts, v.correctIdx))
        && (r.RolledBack? ==> unchanged(store))
      ensures r.Committed? ==> store.nextQuestionId == old(store.nextQuestionId) + (if questionId.None? then 1 else 0)
      ensures store.categories == old(store.categories) && store.nextCategoryId == old(store.nextCategoryId)
    {
      var v := ValidateInput(questionText, fields[..], marks);
      if !v.Accepted? {
        return Rejected(v);
      }
      r := store.SaveQuestion(categoryId, questionId, v.questionText, v.optionTexts, v.correctIdx, dbUp, keyReturned);
    }
  }

  // ---------------------------------------------------------------------
  // The tables the panel changes
  // ---------------------------------------------------------------------

  class AdminStore {
    var categories: seq<CategoryRow>
    var questions: seq<QuestionRow>
    var options: seq<OptionRow>
    /** The ids the database's auto-increment will hand out next. */
    var nextCategoryId: int
    var nextQuestionId: int
    var nextOptionId: int

    ghost predicate Valid()
      reads this
    {
      && (forall i :: 0 <= i < |categories| ==> categories[i].id < nextCategoryId)
      && (forall i :: 0 <= i < |questions| ==> questions[i].id < nextQuestionId)
      && (forall i :: 0 <= i < |options| ==> options[i].id < nextOptionId)
      && Increasing(options)
    }

    constructor (categories: seq<CategoryRow>, questions: seq<QuestionRow>, options: seq<OptionRow>,
                 nextCategoryId: int, nextQuestionId: int, nextOptionId: int)
      requires forall i :: 0 <= i < |categories| ==> categories[i].id < nextCategoryId
      requires forall i :: 0 <= i < |questions| ==> questions[i].id < nextQuestionId
      requires forall i :: 0 <= i < |options| ==> options[i].id < nextOptionId
      requires Increasing(options)
      ensures Valid()
      ensures this.categories == categories && this.questions == questions && this.options == options
      ensures this.nextCategoryId == nextCategoryId && this.nextQuestionId == nextQuestionId
      ensures this.nextOptionId == nextOptionId
    {
      this.categories := categories;
      this.questions := questions;
      this.options := options;
      this.nextCategoryId := nextCategoryId;
      this.nextQuestionId := nextQuestionId;
      this.nextOptionId := nextOptionId;
    }

    /** `addCategory`: nothing for a cancelled or blank name, otherwise insert the trimmed name. */
    method AddCategory(name: Option<string>, dbUp: bool) returns (r: CategoryOutcome)
      requires Valid()
      modifies this
      ensures Valid()
      ensures r == NameMissing <==> name.None? || IsBlank(name.value)
      ensures r == CategoryDbError <==> name.Some? && !IsBlank(name.value) && !dbUp
      ensures r == CategoryStored <==> name.Some? && !IsBlank(name.value) && dbUp
      ensures r == CategoryStored ==>
        categories == old(categories) + [CategoryRow(old(nextCategoryId), Trim(name.value))]
        && nextCategoryId == old(nextCategoryId) + 1
      ensures r != CategoryStored ==> categories == old(categories) && nextCategoryId == old(nextCategoryId)
      ensures questions == old(questions) && options == old(options)
      ensures nextQuestionId == old(nextQuestionId) && nextOptionId == old(nextOptionId)
    {
      if name.None? || IsBlank(name.value) {
        return NameMissing;
      }
      if !dbUp {
        return CategoryDbError;
      }
      categories := categories + [CategoryRow(nextCategoryId, Trim(name.value))];
      nextCategoryId := nextCategoryId + 1;
      r := CategoryStored;
    }

    /** `renameCategory`: needs a selected row, then a non-blank name; stores the trimmed name. */
    method RenameCategory(selected: Option<int>, newName: Option<string>, dbUp: bool) returns (r: CategoryOutcome)
      requires Valid()
      modifies this
      ensures Valid()
      ensures r == NoCategorySelected <==> selected.None?
      ensures r == NameMissing <==> selected.Some? && (newName.None? || IsBlank(newName.value))
      ensures r == CategoryDbError <==> selected.Some? && newName.Some? && !IsBlank(newName.value) && !dbUp
      ensures r == CategoryStored ==> categories == Renamed(old(categories), selected.value, Trim(newName.value))
      ensures r != CategoryStored ==> categories == old(categories)
      ensures nextCategoryId == old(nextCategoryId) && questions == old(questions) && options == old(options)
      ensures nextQuestionId == old(nextQuestionId) && nextOptionId == old(nextOptionId)
    {
      if selected.None? {
        return NoCategorySelected;
      }
      if newName.None? || IsBlank(newName.value) {
        return NameMissing;
      }
      if !dbUp {
        return CategoryDbError;
      }
      categories := Renamed(categories, selected.value, Trim(newName.value));
      r := CategoryStored;
    }

    /** `getQuestionDetails`: the question's text and its options ordered by id, at most four. */
    method GetQuestionDetails(qid: int, dbUp: bool) returns (details: QuestionDetails?)
      requires Valid()
      ensures details == null <==> !dbUp || FindQuestion(questions, qid).None?
      ensures details != null ==>
        && fresh(details) && details.id == Some(qid)
        && details.questionText == FindQuestion(questions, qid).value.text
        && details.options == LoadedOptions(options, qid)
    {
      if !dbUp {
        return null;
      }
      var found := FindQuestion(questions, qid);
      if found.None? {
        return null;
      }
      details := new QuestionDetails(Some(qid), found.value.text);
      var rows := Take(OptionsOf(options, qid), FieldCount);
      var i := 0;
      while i < |rows|
        invariant 0 <= i <= |rows|
        invariant fresh(details) && details.options == DetailsOf(rows[..i])
      {
        details.AddOption(rows[i].text, rows[i].isCorrect == 1);
        assert rows[..i + 1][..i] == rows[..i];
        i := i + 1;
      }
      assert rows[..i] == rows;
    }

    /** `openQuestionDialog`: needs a selected category; for an edit, a question that loads. */
    method OpenQuestionDialog(selectedCategory: Option<int>, qid: Option<int>, dbUp: bool) returns (dlg: QuestionDialog?)
      requires Valid()
      ensures selectedCategory.None? ==> dlg == null
      ensures selectedCategory.Some? && qid.None? ==>
        dlg != null && fresh(dlg) && fresh(dlg.fields) && dlg.Valid()
        && dlg.categoryId == selectedCategory.value && dlg.questionId == None
        && dlg.questionText == [] && dlg.marks == {}
        && forall i :: 0 <= i < FieldCount ==> dlg.fields[i] == []
      ensures selectedCategory.Some? && qid.Some? ==>
        (dlg == null <==> !dbUp || FindQuestion(questions, qid.value).None?)
      ensures selectedCategory.Some? && qid.Some? && dlg != null ==>
        var loaded := LoadedOptions(options, qid.value);
        && fresh(dlg) && fresh(dlg.fields) && dlg.Valid()
        && dlg.categoryId == selectedCategory.value && dlg.questionId == qid
        && dlg.questionText == FindQuestion(questions, qid.value).value.text
        && (forall i :: 0 <= i < FieldCount ==> dlg.fields[i] == if i < |loaded| then loaded[i].text else [])
        && dlg.marks == MarksAfterLoad(loaded, {})
    {
      if selectedCategory.None? {
        return null;
      }
      dlg := new QuestionDialog(selectedCategory.value, qid);
      if qid.Some? {
        var details := GetQuestionDetails(qid.value, dbUp);
        if details == null {
          return null;
        }
        dlg.LoadForEdit(details);
      }
    }

    /** The committed state of a save of question `savedId`, relative to the tables before it. */
    ghost predicate SavedState(oldQuestions: seq<QuestionRow>, oldOptions: seq<OptionRow>, oldNextOptionId: int,
                              categoryId: int, qid: Option<int>, savedId: int,
                              text: string, optionTexts: seq<string>, correctIdx: nat)
      reads this
      requires |optionTexts| == FieldCount
    {
      && questions == (if qid.None? then oldQuestions + [QuestionRow(savedId, categoryId, text)]
                       else Retexted(oldQuestions, savedId, text))
      && options == (if qid.None? then oldOptions else WithoutOptionsOf(oldOptions, savedId))
                    + NewOptions(savedId, optionTexts, correctIdx, oldNextOptionId)
      && nextOptionId == oldNextOptionId + FieldCount
    }

    /**
     * The save transaction: insert the question (using its generated key) or
     * update its text and delete its options, then insert the four option rows;
     * commit everything, or on any failure roll back to the tables as they were.
     */
    method SaveQuestion(categoryId: int, qid: Option<int>, text: string, optionTexts: seq<string>,
                        correctIdx: nat, dbUp: bool, keyReturned: bool) returns (r: SaveOutcome)
      requires Valid() && |optionTexts| == FieldCount && correctIdx < FieldCount
      modifies this
      ensures Valid()
      ensures r == SaveResult(old(nextQuestionId), qid, dbUp, keyReturned)
      ensures r.Committed? ==>
        SavedState(old(questions), old(options), old(nextOptionId), categoryId, qid, r.questionId, text, optionTexts, correctIdx)
      ensures r.Committed? ==> nextQuestionId == old(nextQuestionId) + (if qid.None? then 1 else 0)
      ensures r.RolledBack? ==> unchanged(this)
      ensures categories == old(categories) && nextCategoryId == old(nextCategoryId)
    {
      var qs, os := questions, options;
      var nq := nextQuestionId;
      var qIdToUse: int;
      if qid.None? {
        qs := qs + [QuestionRow(nq, categoryId, text)];
        qIdToUse := nq;
        nq := nq + 1;
        if !keyReturned {
          return RolledBack;
        }
      } else {
        qIdToUse := qid.value;
        qs := Retexted(qs, qIdToUse, text);
        os := WithoutOptionsOf(os, qIdToUse);
      }
      var batch: seq<OptionRow> := [];
      for i := 0 to FieldCount
        invariant batch == NewOptions(qIdToUse, optionTexts, correctIdx, nextOptionId)[..i]
      {
        batch := batch + [OptionRow(nextOptionId + i, qIdToUse, optionTexts[i], if i == correctIdx then 1 else 0)];
      }
      os := os + batch;
      if !dbUp {
        return RolledBack;
      }
      StillIncreasing(options, qid, qIdToUse, batch, nextOptionId);
      questions, options := qs, os;
      nextQuestionId := nq;
      nextOptionId := nextOptionId + FieldCount;
      r := Committed(qIdToUse);
    }
  }

  // ---------------------------------------------------------------------
  // Properties of the tables
  // ---------------------------------------------------------------------

  /** Deleting rows keeps the remaining ids in order. */
  lemma {:induction false} WithoutIncreasing(os: seq<OptionRow>, qid: int)
    requires Increasing(os)
    ensures Increasing(WithoutOptionsOf(os, qid))
  {
    if os != [] {
      WithoutIncreasing(os[1..], qid);
      var rest := WithoutOptionsOf(os[1..], qid);
      forall o | o in rest ensures os[0].id < o.id {
        var k :| 0 <= k < |os[1..]| && os[1..][k] == o;
        assert os[k + 1] == o;
      }
    }
  }

  /** Selecting one question's rows keeps them in id order: the query's ORDER BY id is table order. */
  lemma {:induction false} OptionsOfIncreasing(os: seq<OptionRow>, qid: int)
    requires Increasing(os)
    ensures Increasing(OptionsOf(os, qid))
  {
    if os != [] {
      OptionsOfIncreasing(os[1..], qid);
      var rest := OptionsOf(os[1..], qid);
      forall o | o in rest ensures os[0].id < o.id {
        var k :| 0 <= k < |os[1..]| && os[1..][k] == o;
        assert os[k + 1] == o;
      }
    }
  }

  /** The option table stays in id order and below the next id across a committed save. */
  lemma StillIncreasing(os: seq<OptionRow>, qid: Option<int>, savedId: int, batch: seq<OptionRow>, nextId: int)
    requires Increasing(os) && forall i :: 0 <= i < |os| ==> os[i].id < nextId
    requires |batch| == FieldCount && forall i :: 0 <= i < FieldCount ==> batch[i].id == nextId + i
    ensures var kept := if qid.None? then os else WithoutOptionsOf(os, savedId);
      && Increasing(kept + batch)
      && forall i :: 0 <= i < |kept + batch| ==> (kept + batch)[i].id < nextId + FieldCount
  {
    var kept := if qid.None? then os else WithoutOptionsOf(os, savedId);
    if qid.Some? {
      WithoutIncreasing(os, savedId);
    }
    assert forall o :: o in kept ==> o in os;
    assert forall i :: 0 <= i < |kept| ==> kept[i].id < nextId by {
      forall i | 0 <= i < |kept| ensures kept[i].id < nextId {
        assert kept[i] in os;
      }
    }
  }

  /** Selecting from a concatenation selects from each part. */
  lemma {:induction false} OptionsOfAppend(a: seq<OptionRow>, b: seq<OptionRow>, qid: int)
    ensures OptionsOf(a + b, qid) == OptionsOf(a, qid) + OptionsOf(b, qid)
  {
    if a == [] {
      assert a + b == b;
    } else {
      assert (a + b)[1..] == a[1..] + b;
      OptionsOfAppend(a[1..], b, qid);
    }
  }

  /** After the delete, the question has no options and every other question keeps its own. */
  lemma {:induction false} OptionsOfWithout(os: seq<OptionRow>, deleted: int, qid: int)
    ensures OptionsOf(WithoutOptionsOf(os, deleted), qid) == if qid == deleted then [] else OptionsOf(os, qid)
  {
    if os != [] {
      OptionsOfWithout(os[1..], deleted, qid);
      var head := if os[0].questionId != deleted then [os[0]] else [];
      OptionsOfAppend(head, WithoutOptionsOf(os[1..], deleted), qid);
    }
  }

  /** Rows that all belong to one question are selected whole for it and not at all for any other. */
  lemma {:induction false} OptionsOfOneQuestion(rows: seq<OptionRow>, owner: int, qid: int)
    requires forall i :: 0 <= i < |rows| ==> rows[i].questionId == owner
    ensures OptionsOf(rows, qid) == if qid == owner then rows else []
  {
    if rows != [] {
      OptionsOfOneQuestion(rows[1..], owner, qid);
      assert rows == [rows[0]] + rows[1..];
    }
  }

  /** The inserted rows all belong to the saved question. */
  lemma OptionsOfNew(savedId: int, texts: seq<string>, correctIdx: nat, firstId: int, qid: int)
    requires |texts| == FieldCount
    ensures OptionsOf(NewOptions(savedId, texts, correctIdx, firstId), qid)
      == if qid == savedId then NewOptions(savedId, texts, correctIdx, firstId) else []
  {
    OptionsOfOneQuestion(NewOptions(savedId, texts, correctIdx, firstId), savedId, qid);
  }

  /**
   * After a committed save of question `savedId`, that question has exactly the
   * four new rows (an edit deletes all its earlier ones) and every other
   * question has the rows it had before.
   */
  lemma SavedOptions(os: seq<OptionRow>, isEdit: bool, savedId: int, texts: seq<string>, correctIdx: nat,
                     firstId: int, qid: int)
    requires |texts| == FieldCount
    requires !isEdit ==> OptionsOf(os, savedId) == []
    ensures var after := (if isEdit then WithoutOptionsOf(os, savedId) else os)
                         + NewOptions(savedId, texts, correctIdx, firstId);
      OptionsOf(after, qid) == if qid == savedId then NewOptions(savedId, texts, correctIdx, firstId)
                               else OptionsOf(os, qid)
  {
    var kept := if isEdit then WithoutOptionsOf(os, savedId) else os;
    OptionsOfAppend(kept, NewOptions(savedId, texts, correctIdx, firstId), qid);
    OptionsOfNew(savedId, texts, correctIdx, firstId, qid);
    if isEdit {
      OptionsOfWithout(os, savedId, qid);
    }
  }

  /**
   * Round trip: editing a question right after saving it loads the trimmed
   * option texts into the four fields and marks exactly the option saved as
   * correct.
   */
  lemma ReloadShowsSaved(os: seq<OptionRow>, isEdit: bool, savedId: int, texts: seq<string>, correctIdx: nat,
                         firstId: int)
    requires |texts| == FieldCount && correctIdx < FieldCount
    requires !isEdit ==> OptionsOf(os, savedId) == []
    ensures var after := (if isEdit then WithoutOptionsOf(os, savedId) else os)
                         + NewOptions(savedId, texts, correctIdx, firstId);
      var loaded := LoadedOptions(after, savedId);
      && |loaded| == FieldCount
      && (forall i :: 0 <= i < FieldCount ==> loaded[i] == OptionDetails(texts[i], i == correctIdx))
      && MarksAfterLoad(loaded, {}) == {correctIdx}
  {
    SavedOptions(os, isEdit, savedId, texts, correctIdx, firstId, savedId);
    var after := (if isEdit then WithoutOptionsOf(os, savedId) else os)
                 + NewOptions(savedId, texts, correctIdx, firstId);
    var loaded := LoadedOptions(after, savedId);
    var c := LastCorrect(loaded, FieldCount);
    assert c.Some? by {
      assert loaded[correctIdx].isCorrect;
    }
  }

  /** The edit's UPDATE finds the question again with its new text. */
  lemma RetextedFound(qs: seq<QuestionRow>, id: int, text: string)
    requires FindQuestion(qs, id).Some?
    ensures FindQuestion(Retexted(qs, id, text), id) == Some(FindQuestion(qs, id).value.(text := text))
  {
    var r := Retexted(qs, id, text);
    var k :| 0 <= k < |qs| && qs[k] == FindQuestion(qs, id).value && qs[k].id == id
      && forall i :: 0 <= i < k ==> qs[i].id != id;
    var f := FindQuestion(r, id);
    var j :| 0 <= j < |r| && r[j] == f.value && f.value.id == id && forall i :: 0 <= i < j ==> r[i].id != id;
    assert j == k;
  }

  /**
   * The tables after a committed edit of question `qid`: the edit dialog
   * finds the question with its new text and loads the four saved options.
   */
  lemma EditCommitReloads(oldQuestions: seq<QuestionRow>, oldOptions: seq<OptionRow>, qid: int, text: string,
                          texts: seq<string>, correctIdx: nat, firstId: int)
    requires FindQuestion(oldQuestions, qid).Some?
    requires |texts| == FieldCount && correctIdx < FieldCount
    ensures var qs := Retexted(oldQuestions, qid, text);
      var os := WithoutOptionsOf(oldOptions, qid) + NewOptions(qid, texts, correctIdx, firstId);
      var loaded := LoadedOptions(os, qid);
      && FindQuestion(qs, qid).Some? && FindQuestion(qs, qid).value.text == text
      && |loaded| == FieldCount
      && (forall i :: 0 <= i < FieldCount ==> loaded[i].text == texts[i])
      && MarksAfterLoad(loaded, {}) == {correctIdx}
  {
    RetextedFound(oldQuestions, qid, text);
    ReloadShowsSaved(oldOptions, true, qid, texts, correctIdx, firstId);
  }

  /**
   * Saving an edit and opening the edit dialog again shows the trimmed
   * question text, the trimmed option texts and the option saved as correct.
   */
  method SaveThenReopen(store: AdminStore, dlg: QuestionDialog) returns (again: QuestionDialog?)
    requires store.Valid() && dlg.Valid()
    requires dlg.questionId.Some? && FindQuestion(store.questions, dlg.questionId.value).Some?
    modifies store
    ensures store.Valid()
    ensures var v := Validate(dlg.questionText, dlg.fields[..], dlg.marks);
      && (!v.Accepted? ==> again == null && unchanged(store))
      && (v.Accepted? ==>
            && again != null && again.questionId == dlg.questionId
            && again.questionText == v.questionText
            && again.fields.Length == |v.optionTexts|
            && (forall i :: 0 <= i < |v.optionTexts| ==> again.fields[i] == v.optionTexts[i])
            && again.marks == {v.correctIdx})
  {
    var qid := dlg.questionId.value;
    var v := Validate(dlg.questionText, dlg.fields[..], dlg.marks);
    ghost var oldQuestions, oldOptions, firstId := store.questions, store.options, store.nextOptionId;
    var r := dlg.Save(store, true, true);
    if !v.Accepted? {
      return null;
    }
    assert r == Committed(qid);
    assert store.questions == Retexted(oldQuestions, qid, v.questionText);
    assert store.options == WithoutOptionsOf(oldOptions, qid) + NewOptions(qid, v.optionTexts, v.correctIdx, firstId);
    EditCommitReloads(oldQuestions, oldOptions, qid, v.questionText, v.optionTexts, v.correctIdx, firstId);
    again := store.OpenQuestionDialog(Some(dlg.categoryId), dlg.questionId, true);
  }
}
