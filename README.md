# Resume extractor — a verified model

The resume extractor is a desktop tool for recruiters. It takes PDF or DOCX resumes
and extracts from each one a name, an email, a phone number, a list of skills and an
experience figure. It appends one row per applicant to an Excel workbook. Before it
adds a row, it skips applicants whose email already appears in the workbook within a
configurable number of days.

This project models the core of that tool in Dafny and proves properties of the model:

- **Parser** (`parser.dfy`). The field heuristics of `parser.py`, applied to text that
  has already been extracted:
  - first-match extraction of email, phone and experience;
  - the three-stage experience inferencer: an explicit total, then the largest
    "N years", then the longest date range;
  - year-token parsing;
  - skill detection against a vocabulary;
  - the name fallback that scans the text line by line;
  - `parse_resume`, which assembles the record.

  Each regular expression is represented by the ordered list of its matches.
- **Excel** (`excel.dfy`). The workbook of `excel_handler.py`, as a class holding the
  file's existence and its rows. The model covers:
  - `ensure_excel`, `append_row` / `save_to_excel` and `read_all_rows`;
  - the duplicate check `email_duplicate_within_days`, including its fail-safe
    treatment of blank and unparseable dates;
  - `get_headers` and `update_headers`.
- **CandidateStore** (`candidate_db.dfy`). The SQLite master table of `db-handler.py`,
  as a map from email (the primary key) to record. It models `get_candidate` and
  `upsert_candidate`, with insert-once and bump-on-update semantics.
- **App** (`app.dfy`). The orchestration in `app.py`:
  - collision-free copying into the resume workspace (`safe_copy_to_workspace`,
    `on_upload_multiple`);
  - the sequential batch (`process_files_sequential`), with its per-file statuses,
    the workbook it leaves and its summary counts;
  - loading the tree from the workbook;
  - the search filter;
  - the column editor's list operations.
- **Supporting modules**:
  - `wrappers.dfy`: the `Option` and `Outcome` types;
  - `text.dfy`: string helpers standing in for `strip`, `lower`, `split`,
    `splitlines`, `in` and `int`/`str` (ASCII case and digit classes, Python's full
    whitespace set);
  - `calendar.dfy`: proleptic Gregorian dates and naive datetimes, with ISO
    formatting and parsing and the day count of a `timedelta`.

The following become parameters of the model:

- the clock (`date.today()`, `datetime.now()`);
- the NER model's PERSON entity;
- regex matches;
- whether a workbook save succeeds;
- whether a selected file is the active workbook;
- the set of file names already in the workspace.

## Model

| member | source | states |
|---|---|---|
| Parser.FirstMatchStable | parser.py:166-182 | Only the first match counts: matches after it never change the field. The field is already stripped. This covers the active `find_email`, `find_phone` and `find_experience`. |
| Parser.ParseYearLastWord | parser.py:52-73 | The month test never changes the answer. The year is the last word's value exactly when that word is four digits, and `None` otherwise, including for empty or blank tokens. |
| Parser.YearFromPartsLastWord | parser.py:57-73 | For any word list, the year read is the last word's value exactly when that word is four digits. |
| Parser.FractionValueRange | parser.py:92-93 | The fractional part of a captured number lies in [0, 1). It is 0 exactly when every fractional digit is 0. |
| Parser.WholeIffIntegral | parser.py:92-93 | `is_integer()` holds exactly when the value equals its floor, and the floor is the whole part. |
| Parser.WholeRendering | parser.py:92-93 | A whole value renders as its integer followed by " years", with no decimal point. |
| Parser.MaxIndex | parser.py:98-105 | `max()` over the simple matches: the chosen index bounds every value, and no earlier index reaches it. |
| Parser.FilterMapMembers | parser.py:107-127 | A value is kept exactly when some element maps to it. |
| Parser.RangeSpansMembers | parser.py:107-127 | A span is a candidate exactly when some date range has both years truthy and in order with that difference. |
| Parser.RangeSpansStep | parser.py:111-125 | Each further range appends its span, if it has one, to the candidates. |
| Parser.CollectRangeSpans | parser.py:107-125 | The loop of stage three collects exactly the candidate spans, in match order. |
| Parser.MaxNat | parser.py:123-125 | `max(years_candidates)` is a candidate and bounds every candidate. |
| Parser.FilterMapMaximum | parser.py:107-127 | No candidates exactly when no element yields one. Otherwise the maximum comes from some element and bounds all the others. |
| Parser.InferExperience | parser.py:75-127 | The three-stage `find_experience` computes exactly the staged result. |
| Parser.ExplicitTotalWins | parser.py:86-96 | With non-empty text and an explicit total, the first total is rendered, whatever the other matches. |
| Parser.SimpleMatchMaximum | parser.py:98-105 | Without a total, the result renders a simple match whose value is the largest. |
| Parser.DateRangeMaximum | parser.py:107-127 | Without explicit numbers, the result is "" exactly when no range qualifies. Otherwise it returns the index of a range whose span is the result (followed by " years") and no smaller than any other qualifying span. |
| Parser.FirstIndex | parser.py:187-193 | The index found holds the element, and the element does not occur before it. |
| Parser.FirstIndexUnique | parser.py:187-193 | An index holding the element, with none earlier, is the first index. |
| Parser.SkillsInCharacterised | parser.py:187-193 | The skills found are exactly the vocabulary entries contained in the text. Each appears once, in vocabulary order. |
| Parser.FindSkills | parser.py:187-193 | The loop over the vocabulary on the lower-cased text returns exactly those skills, joined by ", ". |
| Parser.SkillsOfEmptyText | parser.py:129-137 | On empty text, at most the empty skill is found. |
| Parser.ShadowedSkillsAgree | parser.py:129-137 | The shadowed `find_skills` returns "" for empty text. The active one, which lacks that guard, also returns "" there. |
| Parser.FirstNameIndex | parser.py:262-272 | The index found is the first accepted line, or the end when no line is accepted. |
| Parser.FirstNameLineCharacterised | parser.py:262-272 | The fallback is "" exactly when no line is accepted. Otherwise it is the first accepted line, stripped. |
| Parser.FallbackNameFromText | parser.py:262-272 | The line loop that stops at the first non-blank, name-like line returns that stripped line. |
| Parser.Snippet | parser.py:243-251 | The snippet is a prefix of the text. It is the whole text when that has at most 800 characters, and exactly the first 800 otherwise. |
| Parser.ParseResume | parser.py:201-251 | Blank text gives `None`. Otherwise the record holds: the stripped PERSON entity or the line fallback, the first email, phone and experience matches, the found skills, the absolute path and the snippet. |
| Calendar.ParseFormatIso | excel_handler.py:43-53 | The ISO date `append_row` stores parses back with `fromisoformat` to the same date. |
| Calendar.ElapsedDaysSinceMidnight | excel_handler.py:113-114 | Measured from a date at midnight, `(now - applied).days` is the difference of the day numbers. |
| Excel.SheetDataRowsShape | excel_handler.py:64-73 | `iter_rows(min_row=2)` yields one row per stored data row, in order. Each is exactly as wide as the sheet (`max_column`): its stored cells, then `None`. Cell lookups give the same as on the stored row. |
| Excel.EnsuredRowsShape | excel_handler.py:12-22 | An existing file is kept. A new file holds exactly one header row: the given columns, or the seven defaults when none are given. |
| Excel.AppendedRowsShape | excel_handler.py:25-53 | Corrected header placement: appending adds exactly one row, the data row, at the end and keeps the earlier rows. A sheet without a header gets the header first. On a sheet with a header this is also the append as written. |
| Excel.AppendThenReadBack | excel_handler.py:25-73 | Corrected header placement: the data rows after an append are the earlier ones followed by the new one. As written, the same holds on a sheet that has its header. |
| Excel.DataRowFields | excel_handler.py:43-53 | The data row has seven cells in column order. Each field is `data.get(key, "")`, and the date is today's ISO text. |
| Excel.HeaderProbeShiftsHeader | excel_handler.py:38-41 | As written, appending to an empty sheet leaves row 1 blank and puts the header in row 2. The header then reads back as data. |
| Excel.HeaderFirstOnEmptySheet | excel_handler.py:38-53 | Corrected, the header is row 1 and only the new row reads back as data. |
| Excel.NoDuplicateWithoutFileOrEmail | excel_handler.py:81-82 | A missing file or an empty email is never a duplicate. |
| Excel.MatchWithoutUsableDateIsDuplicate | excel_handler.py:99-119 | A row with the same email and a blank or unparseable date counts as a duplicate. |
| Excel.SavedEmailIsRecentDuplicate | excel_handler.py:76-127 | After a record is saved, checking its email within `days` days finds it. |
| Excel.Padding | excel_handler.py:186-190 | `[""] * k` has k cells, all "". |
| Excel.FitRow | excel_handler.py:186-190 | A fitted row has the header's width. It keeps the leading cells and pads with "". |
| Excel.FitRowOfWidth | excel_handler.py:172-190 | A row already of the header's width is unchanged. |
| Excel.FitPaddedOfWidth | excel_handler.py:172-190 | A row of the header's width, padded with `None` when read, is fitted back to itself. |
| Excel.RebuiltRowsShape | excel_handler.py:151-194 | After `update_headers`, the header is the new one and the number of data rows is kept. Every row has the header's width. A data row keeps its leading values. A cell it lacked reads `None` inside the old sheet width and "" beyond it. |
| Excel.RebuildIdempotent | excel_handler.py:151-194 | Renaming the columns twice to the same names is the same as doing it once. |
| Excel.ExcelFile.constructor | excel_handler.py:12-22 | A workbook is either a file with rows or no file. |
| Excel.ExcelFile.EnsureExcel | excel_handler.py:12-22 | Afterwards the file exists, and its rows are the ensured rows of the old state. |
| Excel.ExcelFile.AppendRow | excel_handler.py:25-61 | Corrected header placement: a successful save leaves the old rows with the data row appended, after a header when the sheet had none. On a sheet with a header, the rows are those of the append as written. A failing save leaves the workbook unchanged. |
| Excel.ExcelFile.SaveToExcel | excel_handler.py:130-135 | The same as `append_row`, with the same corrected header placement. |
| Excel.ExcelFile.ReadAllRows | excel_handler.py:64-73 | Returns exactly the data rows, each padded with `None` to the sheet's width, and nothing for a missing file. |
| Excel.ExcelFile.EmailDuplicateWithinDays | excel_handler.py:76-127 | True exactly when the file exists, the email is non-empty and some data row is a duplicate. |
| Excel.ExcelFile.CheckRow | excel_handler.py:91-119 | One row hits exactly when the email matches and the date is missing, unparseable or within the window. |
| Excel.ExcelFile.GetHeaders | excel_handler.py:137-149 | A missing file gives []. Otherwise the result is row 1 across the sheet's whole width (`ws[1]`), with `None` and missing cells shown as "". |
| Excel.ExcelFile.UpdateHeaders | excel_handler.py:151-194 | A missing file fails with `FileNotFoundError` and changes nothing. A failing save changes nothing. Otherwise the sheet is rebuilt: the new header, then every data row, as read, fitted to its width. |
| CandidateStore.UpsertKeepsKeys | db-handler.py:60-89 | Every record stays under its own email (the primary key) after any upsert. |
| CandidateStore.InsertNewEmail | db-handler.py:77-86 | Inserting a new email succeeds. It adds exactly that key, with a count of 1 and the current timestamp. Its email, name, phone, experience and resume path are the given ones. |
| CandidateStore.InsertDuplicateRejected | db-handler.py:77-89 | Inserting an email already present violates the primary key. It returns False and changes nothing. |
| CandidateStore.UpdatePresentEmail | db-handler.py:70-76 | Updating a present email overwrites its fields and date and adds exactly one to its count. The key set stays the same. |
| CandidateStore.UpdateAbsentEmail | db-handler.py:70-86 | Updating an absent email matches no row. It returns True and changes nothing. |
| CandidateStore.MissingKeyFails | db-handler.py:60-89 | A dictionary lacking one of the five keys returns False and changes nothing. |
| CandidateStore.OthersUntouched | db-handler.py:60-89 | Records under every other email are unchanged. |
| CandidateStore.TotalWithout | db-handler.py:70-82 | The total application count does not depend on the order in which emails are summed. |
| CandidateStore.TotalOfSameRecords | db-handler.py:70-82 | Two tables that agree on the counts of some emails agree on their total. |
| CandidateStore.ApplicationsGrowByOne | db-handler.py:70-86 | A successful insert, or an update of a present email, raises the table's total applications by exactly one. |
| CandidateStore.CandidateDB.constructor | db-handler.py:13-34 | The table is created when missing and kept when it exists. |
| CandidateStore.CandidateDB.GetCandidate | db-handler.py:36-58 | Returns the stored record, under its own email, or `None` for an absent email. |
| CandidateStore.CandidateDB.UpsertCandidate | db-handler.py:60-89 | The result flag and the new table are those of the upsert, and the primary key is kept. |
| App.LastDot | app.py:292-294 | The dot found is the last one in the name, or there is none. |
| App.StemSuffixSplit | app.py:292-294 | Stem followed by suffix is the name. The suffix is empty or a single dot-led extension. |
| App.NumberedNameInjective | app.py:296-298 | Different counters give different candidate names. |
| App.AttemptsDistinct | app.py:292-298 | The names tried by the collision loop are pairwise distinct. |
| App.AttemptsStep | app.py:296-298 | Each attempt is a new name, added to those tried. |
| App.ChooseDestination | app.py:292-298 | The name chosen is free. It is the original name when that is free; otherwise it is `stem_i.ext`, the first such name not taken. |
| App.Workspace.constructor | app.py:280-305 | The workspace starts with the given files. |
| App.Workspace.SafeCopyToWorkspace | app.py:280-305 | When the active workbook is selected, the result is `None` and nothing is copied. Otherwise the copy lands on a new name: the original name when free, else the first `stem_i.ext` not taken. |
| App.Workspace.UploadMultiple | app.py:316-326 | Every selected file that is not the active workbook is saved, in order, under its own name or a numbered variant of it. Each name was free and differs from the others. The workspace gains exactly those names. |
| App.JobSheetValid | app.py:234-265 | After any file, the workbook still holds rows only when it exists. |
| App.Fold | app.py:233-265 | The loop records one status per file. |
| App.FoldStatuses | app.py:233-265 | Each file's status is judged against the workbook the earlier files left. |
| App.RunStep | app.py:233-265 | One more file appends its status and moves the workbook on by it. |
| App.TallyCounts | app.py:274-277 | Counting a status over the results is counting it over the statuses. |
| App.SummaryAddsUp | app.py:274-278 | added + skipped + failed, where failed counts both Failed and Error, is the number of files. |
| App.RunStatuses | app.py:233-265 | Each file's status is that of its job against the workbook the earlier files left. |
| App.JobStatusCases | app.py:236-262 | Each status holds exactly when its case holds. Failed exactly when there is no data. Skipped exactly when the duplicate check is on and finds a recent duplicate. Added exactly when, in addition, the save succeeds. |
| App.FoldAccumulates | app.py:233-265 | A loop whose steps keep an invariant and extend an output ends with the invariant kept and all contributions appended in order. |
| App.RunKeepsSheetValid | app.py:233-265 | The workbook stays well formed through the whole batch. |
| App.AddedHadData | app.py:238-257 | A file is Added only when it had extractable data. |
| App.JobSheetReadBack | app.py:246-262 | Corrected header placement: after one file, the data rows are the earlier ones plus its row if it was added. |
| App.BatchRowsReadBack | app.py:233-265 | Corrected header placement: after the batch, the workbook's data rows are the earlier ones followed by the rows of the added files, in file order. |
| App.RepeatedEmailSkipped | app.py:246-257 | A file whose email was just added is Skipped when a later file in the window carries the same email. |
| App.ProcessOne | app.py:234-265 | One iteration gives the file's status and leaves the workbook in the state that status defines, with the corrected header placement. |
| App.ProcessNext | app.py:234-265 | One more iteration extends the recorded run by one file, with the corrected header placement. |
| App.ProcessLoop | app.py:233-265 | The loop's results are `(name, status)` per file, and the workbook is the run's final state, with the corrected header placement. `processed` counts every file, plus one extra for each Failed file. |
| App.ProcessFilesSequential | app.py:221-278 | The batch leaves the workbook in the run's final state, with the corrected header placement, and records the name and status of each file. The added, skipped and failed tallies equal the status counts. |
| App.FirstShortRow | app.py:154-156 | The index found is the first row with fewer than five cells, where `r[4]` raises. It is applied to rows as read back, which are padded to the sheet's width (see App.TreeRowsAllOrNothing). |
| App.TreeRowsAllOrNothing | app.py:150-156 | Rows read back share the sheet's width, so `r[4]` raises on none of them when the sheet has at least five columns, and on the first otherwise. Padding keeps one read row per stored data row. |
| App.RefreshTreeFromExcel | app.py:147-156 | The tree shows one item per data row, in order, up to the first short row; `complete` holds exactly when every row was shown. A sheet at least five columns wide shows every row; a narrower one shows none. |
| App.VisibleMembers | app.py:158-166 | A row is listed exactly when it was a candidate and matches the query. |
| App.VisibleEmptyAndIdempotent | app.py:158-166 | The empty query lists everything. Filtering twice by the same query is filtering once. |
| App.FilterItems | app.py:160-166 | The loop keeps exactly the matching rows, in order. |
| App.SearchView.constructor | app.py:147-156 | After loading, every row is listed. |
| App.SearchView.OnSearchChangeAsWritten | app.py:158-166 | As written, the filter runs over the rows currently attached, not over all rows loaded. |
| App.SearchView.OnSearchChange | app.py:158-166 | Corrected, afterwards the rows listed are exactly the loaded rows that match the stripped, lower-cased query. |
| App.ClearedSearchStaysNarrowed | app.py:158-166 | As written, after a query hides a row, clearing the search leaves that row hidden. |
| App.ClearedSearchRestoresAll | app.py:158-166 | Corrected, clearing the search lists every loaded row. |
| App.Swap | app.py:396-418 | Exchanging two names changes those two positions and no other. |
| App.SwapPermutes | app.py:396-418 | Moving a column keeps the same multiset of names. |
| App.SwapUndone | app.py:396-418 | Moving up and then back down restores the list. |
| App.RemoveAt | app.py:389-394 | Removing deletes exactly the selected name and shifts the later ones up. |
| App.ColumnEditor.constructor | app.py:338-367 | The list starts as the sheet's headers, or the seven defaults when there are none. |
| App.ColumnEditor.AddCol | app.py:381-387 | An empty stripped entry warns and changes nothing. Otherwise the stripped name is appended and the entry cleared. |
| App.ColumnEditor.RemoveCol | app.py:389-394 | Without a selection, nothing changes. Otherwise the selected name is deleted. |
| App.ColumnEditor.MoveUp | app.py:396-406 | Without a selection or at the top, nothing changes. Otherwise the name swaps with the one above, and the selection follows it. |
| App.ColumnEditor.MoveDown | app.py:408-418 | Without a selection or at the bottom, nothing changes. Otherwise the name swaps with the one below, and the selection follows it. |

## Left out

- Text extraction from PDF and DOCX files (pdfplumber, python-docx) is not modelled. These are foreign libraries, so `parse_resume` starts from the extracted text.
- spaCy model loading and named-entity recognition are not modelled. The first PERSON entity, or `None`, is a parameter.
- The regular expressions themselves are not modelled, because there is no regex engine to verify against. Each pattern is represented by the ordered list of its matches or captures.
- Parser.Render: a non-integer experience value is rendered as its shortest decimal, which is not Python's `repr` of the float. Floating-point rounding is not modelled.
- Parser.ParseResume: the extraction and NER exceptions that `parse_resume` catches are not modelled. Only the "no extractable text" path, which returns `None`, is.
- Loading `skills.json` is file I/O, so the vocabulary is a parameter. This includes the built-in fallback list used when the file is missing or unreadable (parser.py:16-18).
- Text helpers: `lower`, `isupper` and `isdigit` are ASCII-only, so there is no Unicode case folding. Whitespace follows Python's full `str.isspace` set.
- Excel.AppliedMoment: only the `YYYY-MM-DD` form of `fromisoformat` is modelled. Other forms it accepts, such as "2019-01-01T10:00:00" or "2019-01-01 10:00", count as unparseable. For such a date older than the window, the model reports a duplicate where the source goes on to the next row.
- Excel.SheetWidth: the width counts every stored cell, including trailing `None` cells. openpyxl does not save unstyled `None` cells, so after a save and reload the sheet can be narrower.
- Empty-string cells: a "" cell is stored as `Str("")`. openpyxl writes such a cell without a value, so it reads back as `None`.
- Excel.ExcelFile.EnsureExcel: a failing save inside `ensure_excel` is not modelled. Neither are openpyxl load errors or the outer `except` of `email_duplicate_within_days`, because these are I/O failures.
- Excel.AppendedRowsShape: states the corrected header placement (Findings, first row). The source differs only on a sheet without a header, where it leaves row 1 blank and writes the header to row 2.
- Excel.AppendThenReadBack: follows the corrected header placement. On a sheet without a header, the source also reads the header back as a data row.
- Excel.ExcelFile.AppendRow: follows the corrected header placement. On a new file or a headerless sheet, the source writes a blank row 1 and the header in row 2.
- Excel.ExcelFile.SaveToExcel: follows the corrected header placement, as `AppendRow` does.
- App.JobSheetReadBack: follows the corrected header placement. It differs from the source only when the active workbook exists with a headerless sheet; a missing workbook gets its header from `ensure_excel` first.
- App.BatchRowsReadBack: follows the corrected header placement. When the batch starts on an existing workbook with a headerless sheet, the source reads the header back as an extra data row.
- App.ProcessOne: the workbook it leaves follows the corrected header placement, which differs from the source only on an existing headerless sheet.
- App.ProcessNext: the workbook it leaves follows the corrected header placement, as in `ProcessOne`.
- App.ProcessLoop: the final workbook follows the corrected header placement, as in `ProcessOne`.
- App.ProcessFilesSequential: the final workbook follows the corrected header placement, as in `ProcessOne`. The statuses, tallies and `processed` are those of the source.
- Excel.RebuiltRowsShape: the row count is kept in the rebuilt sheet, not in the file reloaded after the save. openpyxl writes no cell for `append([])` or for a `None` or "" value, and a reload ends at the last row that has a cell. So when the new header list is empty, every row is lost, header included. Trailing rows whose kept cells are all empty are lost as well.
- Excel.ExcelFile.UpdateHeaders: its new `rows` are the rebuilt sheet before saving. The rows that a reload of the saved file loses (see Excel.RebuiltRowsShape) are not modelled.
- Excel.ExcelFile.UpdateHeaders: the `.bak` backup file and the worksheet title are not modelled. Only the active sheet's rows are. A failing `new_wb.save` is a parameter; which exception it raises (the `PermissionError` the column dialog retries on) is not modelled.
- Numeric cell values are not modelled, only `None`, strings, dates and datetimes. They are never written by the code.
- CandidateStore: connection errors, concurrency and the SQLite file itself are not modelled. The clock is a parameter, and timestamps are naive (no time zone).
- CandidateStore.Upsert: field values are strings. A `None` email, which SQLite accepts repeatedly under a `TEXT PRIMARY KEY` without `NOT NULL` (db-handler.py:22), is not modelled. So two inserts of a `None` email, which both succeed in SQLite, are outside the model.
- CandidateStore.CandidateDB.UpsertCandidate: inherits Upsert's string-valued fields, so a `None` email is not modelled.
- App.Workspace.SafeCopyToWorkspace: path resolution in the active-workbook test is a boolean parameter. A failing `copy2`, which is re-raised, is not modelled.
- `on_upload_single` and the background thread start are not modelled (concurrency). The batch itself is modelled sequentially as `ProcessFilesSequential`.
- Tk widgets, status messages, progress-bar steps, message boxes and `ui_call` are not modelled. These are GUI side effects.
- The row the batch inserts into the tree, showing "(today)", is not modelled. Only the workbook is.
- CSV export, the create/select workbook dialogs, the column dialog's save and confirmation loop, and `utils.py` logging are not modelled. They are GUI or I/O.
- App.SearchView: tree values are taken as strings. Tk's conversion of values, such as numbers turning into text, is not modelled.
- App.ProcessOne: an `Error` status covers only the two exceptions that can arise in the modelled code: an unreadable window spinbox and a failing append. Other exceptions with their messages are not modelled, and the error text is dropped.

## Findings

| source | as written | input that shows it | evidently intended | confidence | as-written member | corrected member |
|---|---|---|---|---|---|---|
| excel_handler.py:38-41 | Testing `ws.cell(1, 1).value` creates cell A1, so the following `ws.append(columns)` writes the header to row 2. Row 1 stays blank, and `read_all_rows` returns the header as a data row. | `append_row` on a fresh workbook, or on a new file, with any data | The header is row 1, and only the data rows read back | medium, not executed | Excel.HeaderProbeShiftsHeader | Excel.HeaderFirstOnEmptySheet |
| app.py:158-166 | `tree.get_children()` lists only attached items. Rows detached by an earlier query are never re-examined, so clearing the search does not bring them back. | Load rows ["ab"] and ["cd"], search "a", then clear the search | Every search filters all loaded rows; clearing lists them all | medium, not executed | App.ClearedSearchStaysNarrowed | App.ClearedSearchRestoresAll |
