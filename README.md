# Quiz platform: a verified model of its screens' logic

The quiz platform is a desktop application backed by an SQL database. Its core is four screens.

- **Login**: the Login button trims the username and takes the password as typed. It rejects empty fields, then looks the pair up among the user rows. A user whose role is "admin" (ignoring case) goes to the admin panel; everyone else goes to the category screen with their user id. The Register button appends a user row whose role is "user".
- **Quiz**: all questions of one category are loaded with their options. The user steps through them with Prev and Next. Each question remembers the radio button last selected on it, and coming back to a question restores that selection. Submit saves the current answer, counts the correctly answered questions, appends one row to the results table and opens the result screen.
- **Result**: the result screen shows the score, the number of questions and the percentage `score*100/total` in integer arithmetic, or 0 for an empty quiz.
- **Admin**: the admin panel adds and renames categories and saves questions from a dialog with one text area, four option fields and four "Correct" radio buttons. Saving checks the inputs in a fixed order. It then rewrites the question and its four option rows in a single transaction that either commits everything or rolls back. Editing first loads the stored question into the dialog.

The project has six modules.

- `Wrappers`: the `Option` type.
- `JavaText`: Java's `String.trim` and the blank test.
- `ResultView`: Java's truncating `int` division and the percentage.
- `Login`: the login decision and the `UserTable` class.
- `Quiz`: the `QuizSession` class, whose fields the screen updates in place.
- `Admin`: the dialog, the tables and the save transaction.

The database tables are `seq` fields. Whether the database answers is a `dbUp: bool` parameter of each operation that runs a statement. Whether an insert hands back its generated key is a `keyReturned: bool` parameter.

The radio groups are modelled as the set of selected button indices. `clearSelection` empties the set and `setSelected(true)` replaces the selection. `setSelected(false)` leaves the set unchanged, because a Swing button group cannot have a button switched off programmatically. As a result, the edit dialog marks the last loaded option flagged correct.

## Model

| member | source | states |
|---|---|---|
| JavaText.Trim | Quiz-Platform/src/LoginWindow.java:38 | trim never lengthens; the result is empty exactly when the input is blank; a non-empty result starts and ends with a non-trimmable character |
| JavaText.BlankIsAllTrimmable | Quiz-Platform/src/AdminWindow.java:234 | a string is blank (`trim().isEmpty()`) exactly when every character is at or below U+0020 |
| JavaText.TrimIsSlice | Quiz-Platform/src/AdminWindow.java:391 | trim keeps one contiguous piece `s[i..j]`, and everything it drops before `i` and after `j` is trimmable |
| JavaText.TrimIdempotent | Quiz-Platform/src/AdminWindow.java:399 | trimming an already trimmed text changes nothing |
| ResultView.TruncDiv | Quiz-Platform/src/ResultWindow.java:17 | Java `int` division: the magnitude of the quotient is the floor of the magnitudes' quotient, with the sign rounded toward zero |
| ResultView.Percentage | Quiz-Platform/src/ResultWindow.java:17 | 0 when there are no questions; otherwise the largest `p` with `p*total <= score*100` |
| ResultView.Show | Quiz-Platform/src/ResultWindow.java:16-17 | the screen shows the score and the total it was given, unchanged, next to the percentage |
| ResultView.PercentageInRange | Quiz-Platform/src/ResultWindow.java:17 | a score between 0 and the number of questions gives a percentage between 0 and 100 |
| ResultView.PercentageFull | Quiz-Platform/src/ResultWindow.java:17 | a perfect score on a non-empty quiz shows exactly 100 |
| Login.FirstMatch | Quiz-Platform/src/LoginWindow.java:46-53 | no result exactly when no row matches both username and password; otherwise the index of the first row that does |
| Login.AttemptLogin | Quiz-Platform/src/LoginWindow.java:37-72 | missing fields exactly when the trimmed username or the password is empty; a database error only after the guard passes; invalid credentials exactly when no row matches; otherwise admin panel exactly when the first matching row's role equals "admin" ignoring case, and otherwise the category screen with that row's id and the trimmed username |
| Login.UserTable.Register | Quiz-Platform/src/LoginWindow.java:74-92 | the same guard as login; a failed insert changes nothing; success appends exactly one row with the trimmed username, the verbatim password, role "user" and a fresh id, with no uniqueness check |
| Login.IsAdminRole | Quiz-Platform/src/LoginWindow.java:55-57 | decides `"admin".equalsIgnoreCase(role)` position by position in either case, with U+0130 and U+0131 also matching `i`; its contract: an admin role is never null and has exactly five characters (the spellings it accepts and refuses are in `AdminRoleSpellings`) |
| Login.AdminRoleLetters | Quiz-Platform/src/LoginWindow.java:57 | for every role: it reaches the admin panel exactly when it has five characters, each one of the case variants of the letter of "admin" at that position, with U+0130 and U+0131 also accepted for `i` |
| Login.AdminRoleSpellings | Quiz-Platform/src/LoginWindow.java:57 | "admin", "ADMIN", "Admin" and the dotted/dotless-i spellings reach the admin panel; a null role, "admin " and "administrator" do not |
| Login.UserRoleIsNotAdmin | Quiz-Platform/src/LoginWindow.java:57 | the role "user" that registration writes is not routed to the admin panel |
| Login.FirstMatchAppend | Quiz-Platform/src/LoginWindow.java:82-87 | appending rows never changes which earlier row the lookup finds first |
| Login.RegisterThenLogin | Quiz-Platform/src/LoginWindow.java:53-63 | after a registration, logging in with the same fields succeeds; if no earlier row held that pair, it opens the category screen for the new row's id |
| Quiz.ToOptions | Quiz-Platform/src/QuizWindow.java:43-45 | one option per fetched row, in order, with the same id and text, and correct exactly when the column is 1 |
| Quiz.Loaded | Quiz-Platform/src/QuizWindow.java:37-48 | one question per fetched row, in order, with its converted options and no saved answer (-1) |
| Quiz.CorrectCount | Quiz-Platform/src/QuizWindow.java:124-129 | the number of correctly answered questions never exceeds the number of questions |
| Quiz.SavedIndex | Quiz-Platform/src/QuizWindow.java:115-121 | -1 exactly when no button is selected; otherwise the lowest selected button |
| Quiz.Restored | Quiz-Platform/src/QuizWindow.java:98-112 | after clearing, at most one button is selected, and none exactly when the saved index is outside 0..3 |
| Quiz.WithAnswer | Quiz-Platform/src/QuizWindow.java:115-121 | only the current question changes, and only its saved index, which becomes the saved selection |
| Quiz.QuizSession.constructor | Quiz-Platform/src/QuizWindow.java:18-27 | the loaded questions, cursor 0, score 0; the first question is shown when there is one |
| Quiz.QuizSession.LoadQuestions | Quiz-Platform/src/QuizWindow.java:29-51 | appends exactly the loaded questions and touches nothing else |
| Quiz.QuizSession.ShowQuestion | Quiz-Platform/src/QuizWindow.java:90-113 | an empty quiz changes nothing; otherwise the screen shows the question: button `i` has option `i`'s text or an empty text, and the selection is the restored saved answer |
| Quiz.QuizSession.Select | Quiz-Platform/src/QuizWindow.java:60-64 | clicking a button in the group leaves exactly that button selected |
| Quiz.QuizSession.SaveAnswer | Quiz-Platform/src/QuizWindow.java:115-121 | records the saved selection on the current question; nothing else changes, including the cursor |
| Quiz.QuizSession.Prev | Quiz-Platform/src/QuizWindow.java:76-78 | on the first question nothing changes; otherwise it saves the answer, steps the cursor back by one and shows that question; the cursor stays in range |
| Quiz.QuizSession.Next | Quiz-Platform/src/QuizWindow.java:79-81 | on the last question nothing changes; otherwise it saves the answer, steps the cursor forward by one and shows that question; the cursor stays in range |
| Quiz.QuizSession.ComputeScoreAndSave | Quiz-Platform/src/QuizWindow.java:123-138 | the score is counted from zero and equals the number of correctly answered questions; one result row `(userId, categoryId, score)` is appended unless the insert fails |
| Quiz.QuizSession.Submit | Quiz-Platform/src/QuizWindow.java:82-87 | saves the current answer first, scores, records the result, and hands the result screen exactly `Show(score, questions.size())`: that score, the number of questions and their percentage, which lies between 0 and 100; the cursor, the shown question and the selection stay as they were |
| Quiz.RevisitKeepsSelection | Quiz-Platform/src/QuizWindow.java:76-81 | Next followed by Prev returns to the same question with the same selection |
| Quiz.RestoreAfterSave | Quiz-Platform/src/QuizWindow.java:110-121 | showing a question whose answer was just saved restores exactly the group state it was saved from |
| Quiz.SaveAfterRestore | Quiz-Platform/src/QuizWindow.java:110-121 | saving the selection a question was shown with records the same answer |
| Quiz.FullScore | Quiz-Platform/src/QuizWindow.java:124-129 | the score equals the number of questions exactly when every question is answered correctly |
| Quiz.ZeroScore | Quiz-Platform/src/QuizWindow.java:124-129 | the score is 0 exactly when no question is answered correctly |
| Quiz.LoadedScoresZero | Quiz-Platform/src/QuizWindow.java:126 | unanswered questions count as wrong, so a freshly loaded quiz scores 0 |
| Admin.SaveResult | Quiz-Platform/src/AdminWindow.java:412-463 | the transaction commits exactly when the database answers and the save is an edit or the add gets its generated key, and rolls back otherwise; a commit reports the new key for an add and the edited id for an edit |
| Admin.OptionsOf | Quiz-Platform/src/AdminWindow.java:218-219 | the selected rows are exactly the rows of that question |
| Admin.WithoutOptionsOf | Quiz-Platform/src/AdminWindow.java:441-443 | the rows kept after the delete are exactly the rows of other questions |
| Admin.Take | Quiz-Platform/src/AdminWindow.java:219 | `LIMIT n` keeps the first `min(n, size)` rows |
| Admin.FindQuestion | Quiz-Platform/src/AdminWindow.java:207-214 | no result exactly when no question has the id; otherwise the first question with it |
| Admin.Retexted | Quiz-Platform/src/AdminWindow.java:434-437 | the question with the id gets the new text and every other row is unchanged |
| Admin.Renamed | Quiz-Platform/src/AdminWindow.java:259-263 | the category with the id gets the new name and every other row is unchanged |
| Admin.NewOptions | Quiz-Platform/src/AdminWindow.java:447-455 | exactly four rows for the question, in field order, with consecutive fresh ids; `is_correct` is 1 exactly at the correct index and 0 elsewhere |
| Admin.DetailsOf | Quiz-Platform/src/AdminWindow.java:221-223 | one detail per row, in order, with the row's text and correct exactly when the column is 1 |
| Admin.LoadedOptions | Quiz-Platform/src/AdminWindow.java:218-224 | the edit dialog loads at most four options |
| Admin.FirstBlank | Quiz-Platform/src/AdminWindow.java:398-403 | no result exactly when no field is blank; otherwise the first blank field |
| Admin.LastMarked | Quiz-Platform/src/AdminWindow.java:404-405 | no result exactly when none of the first `n` buttons is marked; otherwise the last marked one |
| Admin.Validate | Quiz-Platform/src/AdminWindow.java:391-410 | checks run in order: an empty question exactly when the text is blank; otherwise the first blank option; otherwise no correct option only when none is marked; acceptance carries the trimmed, non-empty texts and the last marked index |
| Admin.ValidateInput | Quiz-Platform/src/AdminWindow.java:396-410 | the handler's loop over the `optStr` array reaches exactly the `Validate` verdict |
| Admin.LastCorrect | Quiz-Platform/src/AdminWindow.java:362-369 | no result exactly when none of the first `n` loaded options is flagged correct; otherwise the last one that is |
| Admin.MarksStep | Quiz-Platform/src/AdminWindow.java:366 | one more loaded option changes the radio group only when it is flagged correct, and then it selects that button alone |
| Admin.QuestionDetails.constructor | Quiz-Platform/src/AdminWindow.java:46-49 | a question's details start with its id and text and no options |
| Admin.QuestionDetails.AddOption | Quiz-Platform/src/AdminWindow.java:63-65 | appends exactly one option |
| Admin.QuestionDialog.constructor | Quiz-Platform/src/AdminWindow.java:338-354 | a fresh dialog has an empty text area, four empty fields and no mark |
| Admin.QuestionDialog.LoadForEdit | Quiz-Platform/src/AdminWindow.java:357-369 | the question text is loaded; field `i` gets option `i`'s text for the first four options only; the mark is the last of them flagged correct, or unchanged if none is |
| Admin.QuestionDialog.Save | Quiz-Platform/src/AdminWindow.java:390-463 | a rejected input changes no table; an accepted one runs the transaction with the trimmed texts and the last marked index, which either commits the saved state (an add also advances the next question id) or leaves the tables as they were; categories are never touched |
| Admin.AdminStore.AddCategory | Quiz-Platform/src/AdminWindow.java:232-246 | nothing happens for a cancelled or blank name; a failed insert changes nothing; the category is stored exactly when the name is present, not blank and the database answers, and then one category with the trimmed name and a fresh id is appended |
| Admin.AdminStore.RenameCategory | Quiz-Platform/src/AdminWindow.java:248-270 | a missing selection, a cancelled or blank name or a failed update changes nothing; otherwise the selected category gets the trimmed name |
| Admin.AdminStore.GetQuestionDetails | Quiz-Platform/src/AdminWindow.java:202-228 | fails exactly when the database fails or the question is missing; otherwise returns its text and its first four options by id, with `is_correct == 1` read as correct |
| Admin.AdminStore.OpenQuestionDialog | Quiz-Platform/src/AdminWindow.java:325-376 | no dialog without a selected category; an add opens an empty dialog; an edit opens one only if the question loads, and then shows its text, its loaded option texts and marks |
| Admin.AdminStore.SaveQuestion | Quiz-Platform/src/AdminWindow.java:412-463 | all or nothing: a rollback leaves every table and counter unchanged; a commit adds the question under the category with its new id (add) or replaces its text and deletes all its options (edit), then adds the four new option rows; categories are never touched |
| Admin.WithoutIncreasing | Quiz-Platform/src/AdminWindow.java:441-443 | deleting a question's options keeps the other rows in id order |
| Admin.OptionsOfIncreasing | Quiz-Platform/src/AdminWindow.java:219 | one question's rows are in id order, so `ORDER BY id` is table order |
| Admin.StillIncreasing | Quiz-Platform/src/AdminWindow.java:447-456 | after a commit the option table is still in id order, with every id below the next free one |
| Admin.OptionsOfAppend | Quiz-Platform/src/AdminWindow.java:218-219 | selecting one question's rows from two stretches of the table selects from each in turn |
| Admin.OptionsOfWithout | Quiz-Platform/src/AdminWindow.java:441-443 | after the delete, the edited question has no options and every other question keeps its own |
| Admin.OptionsOfOneQuestion | Quiz-Platform/src/AdminWindow.java:449-453 | rows that all belong to one question are selected whole for it and not at all for others |
| Admin.OptionsOfNew | Quiz-Platform/src/AdminWindow.java:447-455 | the four inserted rows belong only to the saved question |
| Admin.SavedOptions | Quiz-Platform/src/AdminWindow.java:430-455 | after a commit the saved question has exactly its four new rows and every other question keeps the rows it had |
| Admin.ReloadShowsSaved | Quiz-Platform/src/AdminWindow.java:447-455 | round trip: loading a question right after saving it gives the four saved texts, with exactly the saved correct option flagged, and marks that option alone |
| Admin.RetextedFound | Quiz-Platform/src/AdminWindow.java:434-437 | after the update, looking the question up finds it with the new text |
| Admin.EditCommitReloads | Quiz-Platform/src/AdminWindow.java:430-456 | after a committed edit, the edit dialog's queries return the new text, the four new option texts and the saved correct option |
| Admin.SaveThenReopen | Quiz-Platform/src/AdminWindow.java:357-463 | saving an edit and then opening the edit dialog again shows the trimmed question text, the trimmed option texts and exactly the option saved as correct; a rejected save changes nothing |

## Left out

- The Swing layout, message dialogs, status-area text, window disposal and screen navigation are not modelled. Each is an outcome value instead.
- The database driver and its connection settings (`DBConnection.java`) are not part of this model. A failing statement is the `dbUp` parameter.
- The category selection screen (`CategoryWindow.java`) is not part of this model. It only lists categories and opens the quiz.
- `loadCategories`, `loadQuestionsForSelectedCategory`, `deleteCategory` and `deleteQuestion` are not modelled. They are listing queries and single DELETE statements with no logic in Java. That a deleted category takes its questions with it is a cascade in the database schema, which this model does not include.
- SQL semantics not written in Java are left out: collation and case rules of the `WHERE` comparisons, uniqueness constraints, and the row order of the quiz's unordered `SELECT`. Query results are given sequences in table order. Option ids grow along the table, as an auto-increment key does.
- A rolled-back insert does not consume an auto-increment id in the model.
- `loadQuestions` keeps the questions read before an SQL exception. The model has no exception path there: it loads every row it is given, so a partial load is a shorter row sequence.
- Exception logging and the `finally` blocks that reset auto-commit and close connections are not modelled.
- Quiz.QuizSession.SaveAnswer: requires a non-empty question list. On an empty quiz the source throws an index exception, and the model does not describe that failure.
- Quiz.QuizSession.Submit: requires a non-empty question list for the same reason.
- Quiz.QuizSession: the questions are values in a sequence, updated by position. The source mutates shared `Question` objects, which are never aliased outside the screen.
- ResultView.Percentage: does not model 32-bit overflow of `score*100`. Its bracket is stated only for a non-negative score, which is the only kind the quiz produces.
- ResultView.TruncDiv: does not model the overflow of `Integer.MIN_VALUE / -1`.
- The text of the question label (`"Q" + (idx+1)` in HTML) is not modelled. The model records which question is shown.
