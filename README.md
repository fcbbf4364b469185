# Calendar and task management: a Dafny model

This project models the logic of a small calendar and task manager. A PHP back end keeps
tasks in a MySQL table and answers JSON requests. A JavaScript front end draws a month grid,
validates the task form and sends filter queries. Each task has:

- a title, a description, a task date and an optional due date (`YYYY-MM-DD`);
- a priority (Low, Medium or High);
- a category and a status (Pending, In Progress or Completed);
- a completion flag.

The model covers these parts of the repository:

- **Task endpoints** (`server/api/tasks.php`). They add, update, delete and toggle a task,
  list a month and list a day. A request's fields are checked in the code's order, each
  failure with the code's message. Invalid priority and status fall back to Medium and
  Pending. Ids arrive as text and are compared the way MySQL compares a string with an
  integer.
- **Filter endpoint** (`server/api/filter.php`). It turns up to six request parameters into
  a `WHERE` clause, sorts the answer and builds the summary of active filters.
- **CSV export and import** (`server/api/import-export.php`):
  - the two exports, as rows of cells;
  - the import loop: its column mapping, the per-record verdicts, the insert outcomes and the
    counts and error lines it reports.
- **Two helpers** (`server/config/database.php`):
  - `validateDate`, modelled as PHP's parse-then-format comparison and proved equal to
    "a real calendar date spelled `YYYY-MM-DD`";
  - `sanitizeInput`: trim, then strip slashes, then escape HTML.
- **Client helpers** (`client/js/utils.js`): `formatDate`, the month and day names, the
  `validateDateFormat` (its pattern plus the month and day bounds every engine enforces),
  and `validateTaskData`.
- **The calendar** (`client/js/calendar.js`):
  - month navigation;
  - the query the calendar sends;
  - the grid: leading fillers, then one cell per day with that day's tasks and at most three
    priority dots plus a `+k` badge.
- **The filter panel** (`client/js/filters.js`):
  - the guard and the parameters of `applyFilters`;
  - the heading labels;
  - grouping a filtered answer into date sections;
  - the search guard;
  - the date-range presets.

The database is a class `Store.TaskStore`: a map from id to task plus the next
auto-increment id. A `SELECT` is `Query.Select`: the rows that satisfy the `WHERE`, in the
`ORDER BY` order, each row once. The outcome of each statement is a parameter: done,
returned false, or threw with a message. The clock and "today" are parameters too.

Modules, one file each:

- `Common`: digits and number text;
- `Gregorian`: the proleptic Gregorian calendar;
- `PhpBuiltins`: trim, strtolower, stripslashes, htmlspecialchars, `is_numeric`;
- `Sql`: MySQL's string-to-number coercion, `LIKE`, and lexicographic `ORDER BY`;
- `Database`, `TaskModel`, `Query`, `Store`, `TasksApi`, `FilterApi`, `ImportExport`: the
  server;
- `ClientUtils`, `ClientCalendar`, `ClientFilters`: the client.

## Model

| member | source | states |
|---|---|---|
| TaskModel.ParsePriority | server/api/tasks.php:151-155 | a text parses to a priority exactly when it is that priority's name |
| TaskModel.ParseStatus | server/api/tasks.php:157-161 | a text parses to a status exactly when it is that status's name |
| TaskModel.NamesParse | server/api/tasks.php:151-161 | every priority and status name parses back to itself |
| TaskModel.PriorityOrDefault | server/api/tasks.php:151-155 | a valid priority name is kept; an absent or unknown one becomes Medium |
| TaskModel.StatusOrDefault | server/api/tasks.php:157-161 | a valid status name is kept; an absent or unknown one becomes Pending |
| TaskModel.RankOrder | server/api/tasks.php:108-110 | `FIELD(priority, 'High', 'Medium', 'Low')` puts High before Medium before Low and gives distinct priorities distinct ranks |
| TaskModel.ToggledAsWritten | server/api/tasks.php:319-325 | the toggle as written flips `is_completed`, and nothing but the flag and the status changes |
| TaskModel.ToggleAsWrittenDisagrees | server/api/tasks.php:319-325 | as written, the new status always contradicts the new flag: a task marked complete becomes Pending |
| TaskModel.ToggleAsWrittenExample | server/api/tasks.php:319-325 | a concrete consistent pending task that the written toggle leaves completed and Pending |
| TaskModel.Toggled | server/api/tasks.php:319-325 | the corrected toggle flips the flag and sets the status to Completed exactly when the new flag is set, changing nothing else |
| TaskModel.ToggledAgrees | server/api/tasks.php:193 | the corrected toggle always leaves flag and status agreeing, as add and update do |
| TaskModel.ToggleTwice | server/api/tasks.php:319-325 | toggling twice restores the flag, and restores the whole task when it was consistent and not In Progress |
| TasksApi.PrepareFields | server/api/tasks.php:131-193 | the checks run in the code's order (id on update, title, task date present, task date valid, due date valid), each failure with the code's message; an accepted request stores the sanitized title, description and category (absent ones as the sanitized ""), keeps the dates, defaults priority and status, and sets the flag exactly for Completed |
| TasksApi.BlankTitleStoredEmpty | server/api/tasks.php:131-186 | a whitespace-only title passes the `empty()` check and is stored as the empty string |
| TasksApi.BlankTitleAccepted | server/api/tasks.php:131-186 | a whitespace-only title is accepted and stored as its sanitized text |
| TasksApi.AddTask | server/api/tasks.php:127-207 | a rejected request replies with its message and leaves the table unchanged; on a failed insert it replies "Failed to add task"; on success it inserts the prepared fields under the next id, replies with that id and keeps the store valid |
| TasksApi.UpdateTask | server/api/tasks.php:209-284 | as AddTask for the update checks; on success the matched row gets the new fields, and its update time moves to now only when some value changed; other rows and the next id unchanged |
| TasksApi.IdTextAccepted | server/api/tasks.php:287-292 | the decimal text of an integer passes the id guard exactly when the integer is not 0 |
| TasksApi.IdTextSelects | server/api/tasks.php:294-298 | an id sent as decimal text selects exactly the row with that id, if any |
| TasksApi.DeleteTask | server/api/tasks.php:286-309 | a missing or non-numeric id is refused; otherwise the row the id selects is removed and the reply says whether one was; a failed statement leaves the table unchanged with the code's message |
| TasksApi.ToggleComplete | server/api/tasks.php:311-341 | same guard and replies as the code; the selected row is toggled (corrected SET order) with its update time, all else unchanged |
| TasksApi.GetTasks | server/api/tasks.php:39-84 | month outside 1..12 or year outside 2000..2100 (numeric texts) are refused with the code's messages; otherwise the reply lists the tasks of that month and year in task-date, priority-descending, newest-first order with their count |
| TasksApi.OnDateIsEquality | server/api/tasks.php:107 | on well-formed stored dates, `task_date = :date` selects exactly the tasks whose date text equals the requested one |
| TasksApi.GetTasksByDate | server/api/tasks.php:86-125 | the date defaults to today; an invalid date is refused with the code's message; otherwise the reply lists that day's tasks in priority order, newest first |
| Store.RowFor | server/api/tasks.php:294-298 | the row a numeric id value selects: present exactly when some key equals the value |
| Store.TaskStore.Rows | server/api/tasks.php:53-73 | a SELECT returns exactly the stored rows satisfying the condition, each once, sorted by the ordering |
| Store.TaskStore.Insert | server/api/tasks.php:163-194 | an INSERT adds the row under the next auto-increment id, which was unused, and advances the counter |
| Store.TaskStore.Replace | server/api/tasks.php:250-273 | an UPDATE by id replaces the fields of the selected row and nothing else, refreshing its update time only when a value changed, and reports one match or none |
| Store.TaskStore.Delete | server/api/tasks.php:294-300 | a DELETE by id removes exactly the selected row, reporting one match or none |
| Store.TaskStore.Toggle | server/api/tasks.php:319-331 | the toggle statement (corrected SET order; see Findings) changes exactly the selected row's flag, status and update time |
| Database.ParseYmd | server/config/database.php:75 | `createFromFormat('Y-m-d')` reads a year of up to four digits and a month and day of up to two, giving fields in range or failure |
| Database.Normalize | server/config/database.php:75 | out-of-range months and days roll over into a valid date |
| Database.NormalizeKeepsValid | server/config/database.php:75 | a valid date is left as it is |
| Database.ParseFormat | server/config/database.php:74-77 | parsing a formatted valid date gives it back for years 0..9999 and fails for longer years |
| Database.ParseFormatFourDigits | server/config/database.php:74-77 | a valid date with a year in 0..9999 parses back from its formatted text |
| Database.ParseFormatLongYear | server/config/database.php:74-77 | a formatted year of five or more digits does not parse |
| Database.IsoParses | server/config/database.php:75 | a `YYYY-MM-DD` digit string parses to its own fields |
| Database.IsoFormats | server/config/database.php:76 | a real calendar date in `YYYY-MM-DD` formats back to the same text |
| Database.ValidateDateIsIso | server/config/database.php:74-77 | `validateDate` holds exactly for the `YYYY-MM-DD` spellings of real calendar dates |
| Database.IsoIsValidated | server/config/database.php:74-77 | every real calendar date spelled `YYYY-MM-DD` is accepted |
| Database.ValidatedIsIso | server/config/database.php:74-77 | every accepted text is such a spelling |
| Database.ValidatedIsTrimmed | server/config/database.php:74-77 | an accepted date is non-empty and unchanged by `trim` |
| Database.FormattedIsValidated | server/config/database.php:74-77 | the formatted text of any valid date with a four-digit year is accepted |
| Database.ValidateLeapDay | server/config/database.php:74-77 | "2024-02-29" is accepted |
| Database.ValidateMayFirst | server/config/database.php:74-77 | "2024-05-01" is accepted |
| Database.RejectNonLeapDay | server/config/database.php:74-77 | "2023-02-29" is refused: it parses but formats as March 1 |
| Database.RejectUnpaddedMonth | server/config/database.php:74-77 | "2024-2-05" is refused: it formats with a padded month |
| Database.DateOf | server/config/database.php:74-77 | the date an accepted text stands for, present exactly when `validateDate` holds, formatting back to the text |
| Database.DateOfInjective | server/config/database.php:74-77 | two accepted texts stand for the same date exactly when they are equal |
| Database.SanitizeInput | server/config/database.php:62-72 | arrays are sanitized element by element keeping their keys; strings stay strings |
| Database.SanitizeTextSafe | server/config/database.php:67-69 | sanitized text contains no raw `<`, `>`, `"` or `'`, and every `&` starts an entity |
| Database.SanitizeInputSafe | server/config/database.php:62-72 | the same holds for every string inside a sanitized array |
| Database.SanitizeTrimsFirst | server/config/database.php:67 | sanitizing a string and sanitizing its trimmed form agree |
| Database.SanitizeUntrimmed | server/config/database.php:67-69 | on a string with no trimmable ends, sanitizing is escaping after stripping slashes |
| Database.SanitizeBlank | server/config/database.php:67-71 | a whitespace-only string sanitizes to the empty string |
| Database.BlanksTrimmed | server/config/database.php:67 | `trim` removes a run of spaces entirely |
| Database.SanitizeStripsBeforeEscaping | server/config/database.php:68-69 | an escaped quote `\'` becomes the entity `&#039;`: slashes go before escaping |
| Database.SanitizeCanStartWithSpace | server/config/database.php:67-68 | trimming comes before stripping slashes, so `\ x` sanitizes to a text that starts with a space |
| Database.SanitizeAmpersand | server/config/database.php:69 | `&` becomes `&amp;` |
| Database.SanitizeEntity | server/config/database.php:69 | an existing entity is escaped again |
| Database.SanitizeNotIdempotent | server/config/database.php:62-72 | sanitizing twice differs from sanitizing once |
| PhpBuiltins.Trim | server/config/database.php:67 | `trim` removes exactly a prefix and a suffix of trimmable characters and leaves non-trimmable ends |
| PhpBuiltins.TrimIdempotent | server/config/database.php:67 | trimming twice is trimming once |
| PhpBuiltins.TrimNoOp | server/config/database.php:67 | a string with non-trimmable ends is unchanged by `trim` |
| PhpBuiltins.ToLower | server/api/import-export.php:278 | `strtolower` keeps the length and lowers each character on its own |
| PhpBuiltins.StripSlashesNoBackslash | server/config/database.php:68 | `stripslashes` leaves a string without backslashes unchanged |
| PhpBuiltins.HtmlSpecialCharsSafe | server/config/database.php:69 | `htmlspecialchars` with `ENT_QUOTES` leaves no raw special character |
| Sql.LeadingNumberOfIntText | server/api/tasks.php:294-298 | the decimal text of an integer is numeric and MySQL reads it as that integer |
| Sql.LeadingNumberOfNegativeText | server/api/tasks.php:294-298 | the same for negative integers |
| Sql.LeadingNumberIgnoresTail | server/api/tasks.php:259-264 | MySQL reads the leading number of a text: "5abc" compares as 5 and "abc" as 0 |
| Sql.PercentMatchesAll | server/api/filter.php:61-64 | the pattern `%` matches every text |
| Sql.LiteralPrefix | server/api/filter.php:61-64 | a literal followed by `%` matches exactly the texts that start with the literal |
| Sql.LeadingPercent | server/api/filter.php:61-64 | a leading `%` matches a text when the rest of the pattern matches some suffix of it |
| Sql.LikeContains | server/api/filter.php:61-64 | `%term%` for a term without wildcards matches exactly the texts containing the term |
| Sql.UnderscoreIsWildcard | server/api/filter.php:61-64 | the search term is not escaped: "a_c" matches "abc", which does not contain it |
| Sql.LexLeTotal | server/api/filter.php:76-79 | the multi-column order compares any two rows |
| Sql.LexLeTrans | server/api/filter.php:76-79 | the multi-column order is transitive |
| Query.DateKeyMeaning | server/api/filter.php:66-74 | on accepted dates, comparing the stored date texts agrees with comparing the dates: equal keys mean equal texts, a smaller key an earlier date |
| Query.OnDateMeaning | server/api/tasks.php:107 | the day condition holds for a task exactly when its date text is the requested one |
| Query.KeyMeaning | server/api/filter.php:76-79 | each ordering's sort key orders two rows exactly as its ORDER BY clause does, column by column |
| Query.SortedMeaning | server/api/filter.php:76-79 | a result is sorted exactly when every earlier row comes before every later one in that ORDER BY |
| Query.PriorityDescending | server/api/tasks.php:68 | `priority DESC` on an ENUM column lists High, Medium, Low; on a text column Medium, Low, High |
| Query.FilterRows | server/api/filter.php:36-74 | filtering keeps exactly the rows satisfying the condition and keeps ids distinct |
| Query.Insert | server/api/filter.php:76-79 | inserting into a sorted result keeps it sorted, adds exactly one row and keeps ids distinct |
| Query.SortRows | server/api/filter.php:76-79 | sorting keeps exactly the same rows and orders them by the ORDER BY |
| Query.Select | server/api/filter.php:23-85 | a SELECT returns exactly the table's rows that satisfy the condition, each once, sorted |
| FilterApi.EffectiveCriteria | server/api/filter.php:40-74 | priority and status filter only when non-empty and one of the valid names; category and search when non-empty; the date bounds only when non-empty and accepted by `validateDate` |
| FilterApi.BuildCriteria | server/api/filter.php:36-74 | building the WHERE clause step by step gives exactly those criteria |
| FilterApi.FilterMeaning | server/api/filter.php:40-74 | a task passes the built clause exactly when it meets every applied parameter, with date bounds compared as dates |
| FilterApi.EnumNames | server/api/filter.php:40-59 | the code's lists of valid names are exactly the names that parse |
| FilterApi.InvalidValuesIgnored | server/api/filter.php:40-74 | an invalid priority, status or date bound filters nothing: it acts as if absent |
| FilterApi.ZeroIsAbsent | server/api/filter.php:40-74 | a parameter "0" is `empty()` and filters nothing |
| FilterApi.NoParametersSelectAll | server/api/filter.php:15-36 | with no parameters every task matches |
| FilterApi.SearchIsSubstring | server/api/filter.php:61-64 | the search condition, once its statement runs (with a marker per use; see Findings), matches a term without wildcards exactly in the tasks whose title or description contains it |
| FilterApi.AsWrittenPrepares | server/api/filter.php:61-64 | the statement as written has no repeated marker exactly when no search condition is appended |
| FilterApi.DistinctPrepares | server/api/filter.php:36-74 | with a marker per use of the search term, no statement filterTasks builds repeats a marker |
| FilterApi.DistinctMarkers | server/api/filter.php:36-74 | the markers follow the fixed order of the conditions, so none repeats |
| FilterApi.Filter | server/api/filter.php:15-99 | the reply succeeds exactly when the database runs and the statement's markers do not repeat; then it carries the matching tasks, their count and the summary |
| FilterApi.FilterTasksAsWritten | server/api/filter.php:61-63 | as written, a request with a non-empty search always replies "Failed to filter tasks", and any other request succeeds exactly when the database runs |
| FilterApi.ActiveLabelsCount | server/api/filter.php:217-226 | the number of labels is the number of non-empty parameters |
| FilterApi.BuildFilterSummary | server/api/filter.php:214-234 | the summary lists a label per non-empty parameter in the code's order, counts them and echoes the six raw values |
| FilterApi.LabelledSummary | server/api/filter.php:217-222 | the labels are "Priority: ", "Category: ", "Status: ", "Search: ", "From: ", "To: " plus the value, in that order, each present only when its value is non-empty |
| FilterApi.SummaryEchoesInvalidPriority | server/api/filter.php:40-46 | an invalid priority filters nothing yet is still listed as an active filter |
| FilterApi.FilteredRowsAnswer | server/api/filter.php:40-85 | the rows the filtered SELECT returns are exactly the stored tasks matching the request, each once, ordered latest task_date first, then High, Medium, Low, then newest first |
| FilterApi.FilterTasks | server/api/filter.php:15-99 | with a marker per use of the search term (see Findings), the reply succeeds exactly when the database runs; on success the reply lists exactly the tasks matching the effective criteria, in the code's order, with their count, and a summary whose labels and filter_count follow the non-empty raw parameters and which echoes the six raw values; on failure it replies "Failed to filter tasks" |
| ImportExport.FullRow | server/api/import-export.php:64-76 | a full export record has eleven cells and starts with the nine cells of the filtered record |
| ImportExport.FilteredRow | server/api/import-export.php:142-152 | a filtered export record has the nine cells of its header |
| ImportExport.FullCells | server/api/import-export.php:64-76 | the cells are title, description, dates (missing due date empty), the names of priority and status, category, and Yes/No for the flag |
| ImportExport.WriteRecords | server/api/import-export.php:58-77 | the CSV is the header followed by one record per task, in order |
| ImportExport.ExportTasks | server/api/import-export.php:30-87 | on success the CSV is the full header and one full record per stored task, newest date first; on failure the code's message |
| ImportExport.Applied | server/api/import-export.php:108-121 | a filter value applies exactly when it is not `empty()` |
| ImportExport.ExportFiltered | server/api/import-export.php:89-163 | on success the CSV holds one record per task matching the applied equality filters, newest date first; on failure the code's message |
| ImportExport.UncheckedFilterSelectsNothing | server/api/import-export.php:108-121 | the values are not checked: an unknown priority or status selects no task at all |
| ImportExport.ColumnMapping | server/api/import-export.php:237-244 | which cell each field is read from for a record of four or more cells, with the code's fallbacks and defaults, each trimmed |
| ImportExport.FourCellsMapping | server/api/import-export.php:237-244 | a four-cell record gets its task date as due date, priority Medium, empty category, status Pending and "No" |
| ImportExport.DefaultsTrimmed | server/api/import-export.php:241-244 | the default cell values are unchanged by `trim` |
| ImportExport.ClassifyRow | server/api/import-export.php:227-262 | a record whose cells are all `empty()` is passed over; one with fewer than four cells is "Insufficient data"; otherwise it is judged on its mapped fields; an insertable record has a title and an accepted date |
| ImportExport.Classify | server/api/import-export.php:246-278 | missing title, missing date and invalid date are reported in that order; otherwise the record is inserted with an invalid due date dropped, priority and status defaulted, and the flag set for yes/true/1/completed in any case |
| ImportExport.WhitespaceRecordIsSkipped | server/api/import-export.php:227-235 | a record of one space is not blank for `array_filter` and is skipped as insufficient; "" and "0" are blank |
| ImportExport.FourColumnsWithoutId | server/api/import-export.php:237-262 | a four-column file without an id column (title, date, priority, status) is skipped for an invalid task date |
| ImportExport.FourColumnsMapped | server/api/import-export.php:237-239 | in a four-cell record the title is cell 1 and the task date cell 3 |
| ImportExport.StatusIsNoDate | server/api/import-export.php:258-262 | no status name is an accepted date |
| ImportExport.LetterFirstIsNoDate | server/api/import-export.php:258 | a text starting with a non-digit is never an accepted date |
| ImportExport.Verdicts | server/api/import-export.php:224-262 | each data record gets its own verdict |
| ImportExport.RunStep | server/api/import-export.php:224-304 | the loop handles record k on line k + 2 and depends only on the earlier records |
| ImportExport.RunAccounting | server/api/import-export.php:197-304 | imported plus skipped is the number of non-blank records; there is one error line per skipped record and one insert per imported one |
| ImportExport.RunExtends | server/api/import-export.php:224-304 | more records only add errors, inserts and counts |
| ImportExport.RunInsertsOnlyVerdicts | server/api/import-export.php:280-293 | everything inserted is the fields of an insertable record whose INSERT succeeded |
| ImportExport.SameOutcomesSameRun | server/api/import-export.php:280-303 | the result depends only on the outcomes of the statements actually run |
| ImportExport.FailureIsolated | server/api/import-export.php:280-303 | one insert that fails instead of succeeding turns exactly one import into one skip |
| ImportExport.AllInserted | server/api/import-export.php:280-293 | when every record is insertable and every insert succeeds, all are imported with no errors |
| ImportExport.OneFailingInsert | server/api/import-export.php:299-302 | a single throwing insert costs one record and yields one message naming its line and the driver's text |
| ImportExport.ThirdOfFiveFails | server/api/import-export.php:299-302 | five insertable records, the third failing: four imported, one skipped, message "Line 4: ..." |
| ImportExport.LineFour | server/api/import-export.php:233 | the line prefix for line 4 is "Line 4: " |
| ImportExport.ImportRecord | server/api/import-export.php:246-303 | one pass of the loop body: counts and errors follow the verdict and the outcome, and the store gains the row exactly when an insertable record's INSERT succeeds |
| ImportExport.ImportRows | server/api/import-export.php:224-304 | the loop's counts, errors and inserts are the specification's run over the records, and the table grows by exactly the inserted rows under consecutive ids |
| ImportExport.ImportTasks | server/api/import-export.php:165-319 | an empty file is refused and the store is left entirely as it was; otherwise the reply carries the counts, the message with ", k skipped" only when k > 0, the number of data lines and the first ten errors, and the table gains the inserted rows |
| ImportExport.NamesTrimmed | server/api/import-export.php:241-243 | priority and status names survive `trim` |
| ImportExport.CompletedCellRoundTrip | server/api/import-export.php:278 | the exported Yes/No cell reads back as the same flag |
| ImportExport.DueCell | server/api/import-export.php:264-285 | an exported due-date cell reads back as the same optional due date |
| ImportExport.ClassifyExported | server/api/import-export.php:246-278 | the exported values of a task with an untrimmable title and an accepted date classify back to the same fields |
| ImportExport.RoundTripCells | server/api/import-export.php:237-278 | any record whose cells 1..8 are an exported task's cells imports as that task's fields |
| ImportExport.FullExportRoundTrip | server/api/import-export.php:237-278 | importing a full export record gives back the task's fields |
| ImportExport.FilteredExportRoundTrip | server/api/import-export.php:237-278 | importing a filtered export record gives back the task's fields |
| ClientUtils.JsTrim | client/js/utils.js:154 | `trim()` removes exactly a prefix and a suffix of JavaScript whitespace |
| ClientUtils.JsTrimEmpty | client/js/utils.js:154 | a text trims to "" exactly when it is all whitespace |
| ClientUtils.JsTrimIdempotent | client/js/filters.js:124-132 | trimming twice is trimming once |
| ClientUtils.JsNewDate | client/js/calendar.js:57-58 | `new Date(y, m, d)` always gives a valid date, rolling over month and day |
| ClientUtils.FirstOfMonth | client/js/filters.js:215 | `new Date(y, m, 1)` is the first of month m + 1 |
| ClientUtils.DayZeroOfNextMonth | client/js/filters.js:216 | `new Date(y, m + 1, 0)` is the last day of month m + 1 |
| ClientUtils.SetDate | client/js/filters.js:203-205 | `setDate` always gives a valid date |
| ClientUtils.SetDateMoves | client/js/filters.js:203-205 | setting the day to day + k moves the date by k days |
| ClientUtils.FormatDateIsServerDate | client/js/utils.js:52-57 | for a four-digit year, `formatDate` writes the server's format, which `validateDate` accepts and reads back as the same date |
| ClientUtils.ShortYearRefused | client/js/utils.js:52-57 | a year below 1000 is not padded, and the server refuses the text |
| ClientUtils.GetMonthName | client/js/utils.js:59-65 | month indices 0..11 have a name, all names distinct; other indices give undefined |
| ClientUtils.GetDayName | client/js/utils.js:67-70 | weekday indices 0..6 have a name, all names distinct; other indices give undefined |
| ClientUtils.DayNameOfDate | client/js/utils.js:67-70 | every date's weekday has a name; 1 January 1970 is a Thursday |
| ClientUtils.DateFormatMeaning | client/js/utils.js:137-143 | validateDateFormat accepts exactly the `YYYY-MM-DD` digit shapes whose month is 1..12 and whose day is 1..31 |
| ClientUtils.SpelledAccepted | client/js/utils.js:137-143 | the zero-padded spelling of a year, a month 1..12 and a day 1..31 is accepted |
| ClientUtils.SpelledRefused | client/js/utils.js:137-143 | the spelling of a month or day outside those bounds has the shape and is refused |
| ClientUtils.MonthThirteenRefused | client/js/utils.js:141-142 | "2023-13-01" has the shape but is no Date, so it is refused |
| ClientUtils.ServerDatesPassShape | client/js/utils.js:137-143 | every date the server accepts passes the client's check |
| ClientUtils.ShapeIsNotCalendar | client/js/utils.js:137-143 | "2023-02-30" passes the client's check and fails the server's |
| ClientUtils.ReportChecks | client/js/utils.js:151-165 | the errors are the messages of the failing checks in order, and valid holds exactly when none failed |
| ClientUtils.ValidateTaskData | client/js/utils.js:151-165 | the same for the five checks of the task form |
| ClientUtils.FailingNone | client/js/utils.js:164 | no message is listed exactly when no check fails |
| ClientUtils.FailingFrom | client/js/utils.js:151-164 | every listed message comes from a failing check |
| ClientUtils.FailingHas | client/js/utils.js:151-164 | every failing check's message is listed |
| ClientUtils.BlankTitleReportedFirst | client/js/utils.js:154 | a missing or whitespace-only title is the first error listed |
| ClientUtils.ZeroTitlePresent | client/js/utils.js:154 | the title "0" is not missing |
| ClientUtils.ServerDateNotBad | client/js/utils.js:155 | a task date the server accepts is not reported |
| ClientUtils.EmptyEnumsAccepted | client/js/utils.js:158-162 | an empty or absent priority and status are never reported |
| ClientUtils.ClientRejectsWhereServerDefaults | client/js/utils.js:158-159 | an unknown priority is an error on the client but silently Medium on the server |
| ClientUtils.ZeroTitleAccepted | client/js/utils.js:154-155 | title "0" with an accepted date passes every client check |
| ClientUtils.ZeroTitleRefused | server/api/tasks.php:131-134 | the server refuses the title "0" as missing |
| ClientCalendar.Shifted | client/js/calendar.js:125-134 | the month stays in 0..11 and, for steps of one, the month count moves by exactly the step |
| ClientCalendar.ShiftedInverse | client/js/calendar.js:125-134 | one month forward then back, or back then forward, returns to the start, year included |
| ClientCalendar.LongStepLosesMonths | client/js/calendar.js:125-134 | a step of two from December lands in January, not February: the wrap resets to 0 or 11 |
| ClientCalendar.MonthQuery | client/js/calendar.js:30-34 | the calendar sends month + 1, a number in 1..12, and the year, which the server accepts exactly for 2000..2100 |
| ClientCalendar.MonthQueryAnswered | client/js/calendar.js:30-40 | the server answers the calendar's query exactly when the year is in range, with that month's tasks |
| ClientCalendar.FirstWeekday | client/js/calendar.js:57 | the number of leading fillers is the weekday of the first of the month |
| ClientCalendar.MonthLength | client/js/calendar.js:58 | the number of day cells is the length of the month |
| ClientCalendar.DotClass | client/js/calendar.js:114 | a dot's class is "priority-" and the lower-cased priority name |
| ClientCalendar.DotClassNames | client/js/calendar.js:114 | the three dot classes are priority-low, priority-medium and priority-high |
| ClientCalendar.TaskDots | client/js/calendar.js:104-123 | a cell shows min(n, 3) dots for its first tasks, in order, and a +k badge exactly when n > 3, with dots plus k equal to n |
| ClientCalendar.DayTasks | client/js/calendar.js:92 | a day's tasks are a subsequence of the month's tasks |
| ClientCalendar.DayTasksMembers | client/js/calendar.js:92 | a day's tasks are exactly the month's tasks with that date text |
| ClientCalendar.NoDayTasks | client/js/calendar.js:92 | a day no task falls on has no tasks |
| ClientCalendar.DayTasksAppend | client/js/calendar.js:92 | the filter keeps the month's order |
| ClientCalendar.DayCellMeaning | client/js/calendar.js:79-102 | a day cell is selected exactly when its date is the selected date, today exactly when it is today's, and holds exactly that date's tasks with their dots |
| ClientCalendar.Fillers | client/js/calendar.js:61-64 | n empty cells |
| ClientCalendar.DayCells | client/js/calendar.js:66-70 | one cell per day |
| ClientCalendar.DayCellsAt | client/js/calendar.js:66-70 | cell k - 1 is the cell of day k with its padded date text |
| ClientCalendar.GridShape | client/js/calendar.js:57-70 | the grid is the weekday of the 1st in fillers, then the days 1..n in order |
| ClientCalendar.GridColumns | client/js/calendar.js:57-70 | day k lands in the column of its weekday |
| ClientCalendar.CellDatesAreServerDates | client/js/calendar.js:67 | for four-digit years each cell date is accepted by the server, stands for that day, and the cell dates increase |
| ClientCalendar.CellDatesDistinct | client/js/calendar.js:67 | different days have different date texts |
| ClientCalendar.TaskInOneCell | client/js/calendar.js:66-92 | a task appears in at most one day cell, the one of its date |
| ClientCalendar.DrawGrid | client/js/calendar.js:61-70 | the two loops produce exactly the grid |
| ClientCalendar.Calendar.constructor | client/js/calendar.js:1-4 | the calendar starts on today's month and year with today selected and no tasks |
| ClientCalendar.Calendar.ChangeMonth | client/js/calendar.js:125-137 | month and year become the shifted ones; the selection and tasks are kept |
| ClientCalendar.Calendar.GoToToday | client/js/calendar.js:139-148 | month, year and selection become today's |
| ClientCalendar.Calendar.SelectDate | client/js/calendar.js:150-160 | the selection becomes the date; month, year and tasks are kept |
| ClientCalendar.Calendar.RenderCalendar | client/js/calendar.js:51-71 | the cells drawn are the grid of the current month, selection and tasks |
| ClientCalendar.Calendar.LoadCalendar | client/js/calendar.js:23-49 | a successful reply replaces the tasks (missing list as empty) and redraws the grid; a failed one changes nothing |
| ClientFilters.FirstDates | client/js/filters.js:114-121 | the section keys are at most as many as the tasks |
| ClientFilters.FirstDatesMeaning | client/js/filters.js:114-121 | the keys are exactly the dates that occur, each once |
| ClientFilters.GroupTasksByDate | client/js/filters.js:114-121 | the groups are keyed by the dates in first-occurrence order, and each holds that date's tasks in the answer's order |
| ClientFilters.GroupsPartition | client/js/filters.js:114-121 | the group sizes add up to the number of tasks: every task is in exactly one group |
| ClientFilters.FirstDatesDescend | client/js/filters.js:97-99 | tasks ordered by a key that tells dates apart give sections in strictly descending key order |
| ClientFilters.SectionsDescending | client/js/filters.js:97-99 | an answer of the filter endpoint, sorted newest date first, gives sections in strictly descending date order |
| ClientFilters.NonEmptyValues | client/js/filters.js:71-74 | the labels are at most the three selections |
| ClientFilters.NonEmptyValuesMembers | client/js/filters.js:71-74 | the labels are exactly the non-empty selections |
| ClientFilters.NonEmptyThree | client/js/filters.js:71-74 | the labels are priority, category, status in that order, each present only when non-empty |
| ClientFilters.FilterParams | client/js/filters.js:20-23 | the request carries only the non-empty selections, and the server sees them with the other parameters empty |
| ClientFilters.ZeroCategoryShownNotApplied | client/js/filters.js:13-23 | the category "0" is sent and shown in the heading, but the server ignores it |
| ClientFilters.LabelsAgreeWithSummary | client/js/filters.js:71-74 | the heading has as many labels as the server's summary, plus one for each selection "0" |
| ClientFilters.FilterPanel.constructor | client/js/filters.js:1-5 | the panel starts with no selections |
| ClientFilters.FilterPanel.ApplyFilters | client/js/filters.js:7-23 | with nothing selected no request is sent and the selections are kept; otherwise they are stored and sent |
| ClientFilters.FilterPanel.ClearFilters | client/js/filters.js:50-59 | all three selections become empty |
| ClientFilters.FilterPanel.FilterLabels | client/js/filters.js:71-74 | the heading labels are the non-empty selections in order |
| ClientFilters.SearchQuery | client/js/filters.js:123-133 | a search is sent exactly when the trimmed term is at least two UTF-16 code units long (two characters, or one beyond U+FFFF), and it sends the trimmed term |
| ClientUtils.JsLengthBasic | client/js/filters.js:124 | without characters beyond U+FFFF, `length` counts characters |
| ClientUtils.JsLengthAtLeastTwo | client/js/filters.js:124 | `length >= 2` holds exactly for two characters or more, or one beyond U+FFFF |
| ClientFilters.SearchAstral | client/js/filters.js:124 | a single emoji is searched for; a single letter is not |
| ClientFilters.SearchReachesServer | client/js/filters.js:130-133 | the corrected server (see Findings) searches for exactly the trimmed term and applies no other filter |
| ClientFilters.SearchFailsAsWritten | client/js/filters.js:123-133 | every search the client sends reaches the as-written server with a non-empty term, whose statement repeats `:search` and so fails |
| ClientFilters.DateRangeQuery | client/js/filters.js:149-160 | a range is sent exactly when both bounds have the date shape with a month 1..12 and a day 1..31, and it sends them as the two bounds |
| ClientFilters.RangeReachesServer | client/js/filters.js:149-160 | for formatted dates the server selects exactly the tasks dated within the range, inclusive |
| ClientFilters.ShapedNonDateIgnored | server/api/filter.php:66-69 | a start bound that passes validateDateFormat but is no calendar day is sent by the client and ignored by the server |
| ClientFilters.ImpossibleBoundIgnored | client/js/filters.js:150 | "2023-02-30" passes the client's check but the server drops that bound |
| ClientFilters.WeekRange | client/js/filters.js:200-211 | this week runs from today minus its weekday to six days later |
| ClientFilters.WeekStartsSunday | client/js/filters.js:203 | the week starts on a Sunday |
| ClientFilters.WeekEndsSaturday | client/js/filters.js:205 | the week ends on a Saturday |
| ClientFilters.WeekHoldsToday | client/js/filters.js:203 | today lies inside its week |
| ClientFilters.MonthRange | client/js/filters.js:213-222 | this month runs from its first to its last day |
| ClientFilters.UpcomingRange | client/js/filters.js:228-237 | upcoming runs from today to seven days later |
| ClientFilters.PresetRange | client/js/filters.js:194-237 | every preset but Overdue has a range of two valid dates |
| ClientFilters.PresetQuery | client/js/filters.js:194-237 | a preset sends a query only when it has a range |
| ClientFilters.PresetSent | client/js/filters.js:194-237 | a preset with four-digit years sends exactly its two formatted bounds |

## Left out

- Request plumbing is not modelled: action dispatch, reading `$_GET`/`$_POST`/the JSON body,
  HTTP headers, `sendResponse`'s timestamp and JSON encoding, `exit`. Requests are values and
  replies are `Response` values.
- Request values are strings or absent. JSON numbers, booleans, arrays and objects in the
  body are not modelled. With them, PHP's loose comparisons behave differently: for
  example `"status": true` passes `in_array` in `server/api/tasks.php:158-159` and is kept
  rather than defaulted, and `"priority": true` likewise passes at lines 152-153.
- Connecting to the database and the generic `executeQuery`/`executeUpdate` helpers
  (`server/config/database.php:1-60`) are not modelled. Each statement's result is a
  parameter: done, returned false, or threw with the driver's message.
- The driver's error text is an arbitrary string parameter.
- Error logging has no effect on anything modelled.
- In the import, the upload checks (`$_FILES`, MIME type, `fopen`) are left out. So are CSV
  quoting, the byte-order mark, and `fgetcsv`'s parsing. A file is a sequence of records,
  each a sequence of cells.
- The export's `fputcsv` quoting, BOM and download file name are left out. The id and
  timestamp columns are cells the import never reads.
- `created_at` and `updated_at` are integers supplied by the caller (`now`); the clock is not
  modelled. The current date is a parameter.
- The column type of `priority` is not part of this repository, and `priority DESC` depends
  on it. It is the parameter `PriorityColumn`: ENUM order or text order.
- String comparison uses exact character equality. MySQL 8's default utf8mb4 collation
  (`utf8mb4_0900_ai_ci`) ignores case and accents in `=` and `LIKE`; that is not modelled.
  It is a NO PAD collation, so trailing spaces count, as they do in the model.
- Requests are taken one at a time. Concurrent requests are not modelled. In particular,
  ImportExport.ImportRows and ImportExport.ImportTasks promise consecutive ids for the
  inserted rows. Each INSERT of `server/api/import-export.php:224-304` commits on its own, so
  a concurrent INSERT could take an id in between.
- Query.Select: rows that tie on every ORDER BY column come out in one order the model
  fixes (insertion sort over the rows taken by id). SQL leaves that order open. So the
  record order that ImportExport.ExportTasks and ImportExport.ExportFiltered state holds
  only up to the order of such ties. FilterApi.FilterTasks states only the pairwise order,
  which any tie order meets.
- Query.EnumColumn: the ENUM order assumes the column is declared `ENUM('Low', 'Medium',
  'High')`. The table definition is not part of this repository.
- TasksApi.AddTask: a due date of `''` or `"0"` passes the `empty()` guard (`server/api/tasks.php:146`)
  and is bound as given (line 187). The model stores it as that text. What a DATE column
  makes of it is not modelled: MySQL's strict mode refuses `''`, and a lenient mode stores
  `0000-00-00`. The table definition is not part of this repository.
- TasksApi.UpdateTask: the same holds for a due date of `''` or `"0"` (`server/api/tasks.php:233`
  and 268).
- Store.TaskStore.Replace: `updated_at` is taken to be declared `ON UPDATE CURRENT_TIMESTAMP`, so it moves
  only when an UPDATE changes some value. The table definition is not part of this
  repository. Store.TaskStore.Toggle always changes the flag, so it always moves there.
- ClientFilters.SearchReachesServer: it states what the corrected server applies. As written, the request
  fails (ClientFilters.SearchFailsAsWritten; see Findings).
- The functions in `server/api/filter.php:101-212` (upcoming, overdue and statistics
  queries) cannot be reached from the dispatch at lines 8-13 and are left out.
- In `client/js/utils.js`, these are display and I/O code and are left out:
  `apiGet`/`apiPost`, `formatDateForDisplay`, `getCurrentDateTime`, `isToday`, `isPast`,
  `showToast`, and the badge and card HTML builders.
- The DOM-based `sanitizeInput` (`client/js/utils.js:145-149`) is left out.
- `client/js/tasks.js` is not part of this model.
- ClientUtils.DateFormatMeaning: the `new Date(dateString)` check of `validateDateFormat` is
  modelled only as the bounds of the ECMAScript date-only form (month 01..12, day 01..31),
  which every engine enforces. A day beyond the month's length, such as "2023-02-30", is
  engine-dependent: the model accepts it, as a lenient engine does, and so do
  ClientUtils.ValidateTaskData and ClientFilters.DateRangeQuery. A strict engine refuses it.
  ClientUtils.ShapeIsNotCalendar, ClientFilters.ShapedNonDateIgnored and
  ClientFilters.ImpossibleBoundIgnored describe the lenient engine.
- ClientCalendar.Calendar.RenderCalendar: the DOM cells are `Cell` values. The dot's title
  attribute, the colour of the badge and the CSS classes other than the selection, today
  and priority classes are not modelled.
- ClientFilters.PresetRange: the Overdue preset only shows a message, so it has no range.
- ClientFilters.GroupTasksByDate: `Object.entries` lists keys that look like array indices
  first. Date keys never look like that, so the model uses first-occurrence order.
- ClientFilters.MonthRange: its contract is stated only for years outside 0..99. There,
  `new Date(y, m, d)` reads the year as 1900 + y; `ClientUtils.JsNewDate` models that, and
  `ClientUtils.FirstOfMonth` and `ClientUtils.DayZeroOfNextMonth` give the general case.
- The asynchronous `await` flow, toasts, loading indicators and `console` output are left
  out; each client method returns the request it would send, or the grid it would draw.
- Sql.LeadingNumberIgnoresTail: MySQL's coercion of a text to a number is modelled as a
  decimal number with optional sign, fraction and exponent, read as an exact rational. The
  rounding to a double is not modelled.
- TasksApi.GetTasks: `is_numeric` and the range checks on the month and year are modelled
  on exact rationals; floating-point rounding of very long numerals is not modelled.

## Findings

| source | as written | input that shows it | evidently intended | confidence | as-written member | corrected member |
|---|---|---|---|---|---|---|
| server/api/tasks.php:319-325 | MySQL applies the `SET` assignments left to right, so the `CASE` reads the flag already flipped | a pending task with `is_completed = 0`: after the toggle `is_completed = 1` and `status = 'Pending'` | status Completed exactly when the new flag is set, as add and update keep them (`server/api/tasks.php:193`) | high; not executed | TaskModel.ToggleAsWrittenDisagrees | TaskModel.ToggledAgrees |
| server/api/filter.php:62-63 | the search condition uses the named marker `:search` twice. With `PDO::ATTR_EMULATE_PREPARES => false` (`server/config/database.php:23`), PDO prepares natively, where a repeated named marker makes execute throw (SQLSTATE HY093). The PDOException is caught and answered with failure | `?action=filterTasks&search=ab`, what `searchTasks` sends: the reply is "Failed to filter tasks" for any table | the rows whose title or description contains the term, with one marker per use (`:search1`, `:search2`) | high; not executed | FilterApi.FilterTasksAsWritten | FilterApi.FilterTasks |

Where the repository's description and its code differ, the model follows the code:

- A four-column file without an id column (title, date, priority, status) is not imported.
  The mapping reads the title from cell 1 and the task date from cell 3, so every record is
  skipped as an invalid task date (`ImportExport.FourColumnsWithoutId`).
- A whitespace-only title passes `empty()` before sanitizing and is stored as the empty
  string (`TasksApi.BlankTitleStoredEmpty`).
