# Review dashboard core, modelled in Dafny

The repository is a small review dashboard in two variants. Users give a star
rating and a review. A hosted language model writes an owner reply and a
two-line analysis ("Summary: …" / "Action: …"). An admin tab shows analytics.
`Task2_WebApp/app.py` keeps the reviews in a spreadsheet. `app.py` keeps them
in a local CSV file. This project models the exact logic under the UI, once
for both copies:

- **the analysis parser** of `generate_ai_content` (module `AiContent`). It
  splits the answer into lines. The summary comes from the first line that
  contains `Summary:` and the action from the first line that contains
  `Action:`. Each value is the text between the first and the second `": "`
  of its line. A field with no matching line takes its default. The
  catch-all `except` replaces both fields when a chosen line has no
  separator;
- **the generator's failure sentinel** `"Error: <message>"` (`AiContent.ReplyText`)
  and how it meets the read-side filter;
- **the record** (module `Reviews`): the eight columns, the fixed name and
  avatar lists, the star widget mapping, the row laid out in header order and
  the submit handler that assembles a record;
- **the spreadsheet read side** (module `SheetDashboard`): loading with
  lower-cased headers, the error-reply filter, the public feed, and the admin
  metrics, distributions and newest-first table;
- **the flat-file store** (module `CsvStore`): a class whose fields are the
  file's existence, header and rows, with `InitDb`, `LoadData` and
  `SaveEntry`, the submit handler, and the unfiltered newest-first feed.

Generic pieces are the modules `Text` (substring search, `str.split`, join,
ASCII lower-casing, string order), `Seqs` (order-preserving filter, reversal,
subsequence) and `ValueCounts` (sorted value counts). `Wrappers` holds
`Option`.

The parser keeps the code's exact behaviour. `split(': ')[1]` takes only
the text between the first and the second `": "`, so a value that itself
holds `": "` is cut there. Each field with no matching line gets its own
default ("General Feedback" for the summary, "Review Manually" for the
action). A chosen line with no separator raises `IndexError`; the handler
then sets both fields to "Analysis Pending" / "Review Manually",
overwriting a summary already extracted.

Inputs that come from outside the program are parameters:
- each model call's outcome: `Generated(text)` or `Failed(message)`;
- the two `random.choice` draws: indices into the name and avatar lists;
- today's date, as a string;
- the star widget's answer: `Option<nat>`;
- the spreadsheet read, as a `SheetRead` value.

## Model

| member | source | states |
|---|---|---|
| `Text.IndexOf` | Task2_WebApp/app.py:115 | The search behind `in` and `split`: a result is an occurrence with no earlier one; None only when the pattern occurs nowhere |
| `Text.JoinSplit` | Task2_WebApp/app.py:114 | Joining the pieces of `split(sep)` with `sep` gives back the original text |
| `Text.SplitPiecesFree` | Task2_WebApp/app.py:114 | No piece of `split(sep)` contains the separator |
| `Text.SplitPieceWithin` | Task2_WebApp/app.py:114 | Whatever a line of the split contains, the whole answer contains |
| `Text.SplitJoinChar` | Task2_WebApp/app.py:114 | Splitting on `'\n'` undoes joining lines that hold no line break |
| `Text.SplitAroundChar` | Task2_WebApp/app.py:114 | Splitting `a + "\n" + b` gives the lines of `a` followed by the lines of `b` |
| `Text.ContainsAfterPrefix` | Task2_WebApp/app.py:115 | A prefix without the pattern's first character cannot start an occurrence, so `a + b` contains the pattern only if `b` does |
| `Text.LowerIdempotent` | Task2_WebApp/app.py:58 | Lower-casing twice is lower-casing once |
| `Seqs.FilterSpec` | Task2_WebApp/app.py:158 | Boolean-mask selection keeps exactly the rows that satisfy the mask, each as often as it occurs, as a subsequence of the input |
| `Seqs.FilterIdempotent` | Task2_WebApp/app.py:207 | Selecting twice with the same mask gives the same rows as selecting once |
| `Seqs.FilterAppend` | Task2_WebApp/app.py:207 | Selection distributes over appending rows |
| `Seqs.ReversedSpec` | Task2_WebApp/app.py:169 | `sort_index(ascending=False)` on a default index: position k holds stored row n-1-k, and the same rows are shown |
| `ValueCounts.InsertSpec` | Task2_WebApp/app.py:236 | Counting one more value keeps keys strictly ascending and counts positive, adds one to the total and to that value's count only |
| `ValueCounts.CountsSpec` | Task2_WebApp/app.py:236 | `value_counts().sort_index()`: keys pairwise strictly ascending; each value's count is its multiplicity in the column; every entry's count is positive and its key occurs in the column; every value of the column is a key; the counts sum to the number of rows |
| `AiContent.ReplyText` | Task2_WebApp/app.py:39-46 | The generator returns the answer text, or `"Error: "` followed by the message on failure (same at app.py:19-25) |
| `AiContent.SecondField` | Task2_WebApp/app.py:115 | `line.split(': ')[1]` raises exactly when the line has no `": "`; otherwise it is the text between the first and second separator |
| `AiContent.FirstWith` | Task2_WebApp/app.py:115 | The lazy generator with `next` picks the first line containing the key; none when no line does |
| `AiContent.Extract` | Task2_WebApp/app.py:115-116 | One field: the default when no line has the key; the segment of the first matching line; a raise exactly when that line has no separator |
| `AiContent.ParseAnalysis` | Task2_WebApp/app.py:113-119 | Both fields are "Analysis Pending" / "Review Manually" when either chosen line lacks the separator; otherwise each field is its first matching line's segment or its default (same at app.py:82-88) |
| `AiContent.WellFormedAnswer` | Task2_WebApp/app.py:107-116 | An answer in the requested `Summary: s` / `Action: a` shape parses to `(s, a)` when the values hold no line break or separator |
| `AiContent.LaterTextIgnored` | Task2_WebApp/app.py:115-116 | Once the answer has both a summary and an action line, text appended after it does not change the result |
| `AiContent.FailedAnalysisDefaults` | Task2_WebApp/app.py:111-116 | A failed analysis call (`"Error: " + message`) yields "General Feedback" / "Review Manually" when the message mentions neither key |
| `AiContent.SummaryOnly` | Task2_WebApp/app.py:115-116 | A lone summary line yields that summary and the default action |
| `AiContent.BrokenActionDiscardsSummary` | app.py:82-88 | A summary that parses on its own is replaced by "Analysis Pending" when a later action line lacks the separator |
| `Reviews.StarValue` | Task2_WebApp/app.py:140 | The stars are always 1..5: widget index i gives i+1, and no click gives 5 (same at app.py:113) |
| `Reviews.NewRecord` | app.py:44-56 | The new record's name is in the fixed 7-name list and its avatar in the 7-avatar list; its other fields are the arguments |
| `Reviews.ToRow` | Task2_WebApp/app.py:74-84 | The appended row has one cell per header, and cell i holds the field that header i names |
| `Reviews.RowRoundTrip` | Task2_WebApp/app.py:75-84 | Reading the appended row back by header name gives the record it was built from |
| `Reviews.Intake` | Task2_WebApp/app.py:140-148 | An empty review produces no record. Otherwise the record has the chosen stars (1..5), the text, the date, the reply or its error sentinel, and the parsed summary and action |
| `SheetDashboard.LowerHeaders` | Task2_WebApp/app.py:58 | Every column name is lower-cased, position by position |
| `SheetDashboard.LowerHeadersIdempotent` | Task2_WebApp/app.py:58 | Lower-casing the headers again changes nothing |
| `SheetDashboard.LoadData` | Task2_WebApp/app.py:50-62 | No connection or a failed read gives an empty table. Otherwise the table has the fetched records and the lower-cased headers, and an empty read has no columns |
| `SheetDashboard.CleanSpec` | Task2_WebApp/app.py:206-209 | With an `ai_reply` column, the clean table holds exactly the records whose lower-cased reply contains none of "error", "429", "404", in stored order. Cleaning twice is cleaning once |
| `SheetDashboard.CleanWithoutReplyColumn` | Task2_WebApp/app.py:157-160 | Without an `ai_reply` column every record is kept |
| `SheetDashboard.ErrorInAnyCase` | Task2_WebApp/app.py:158 | "error" in any letter case anywhere in the reply excludes the record |
| `SheetDashboard.FailedReplyIsError` | Task2_WebApp/app.py:46 | Every failure sentinel `"Error: " + message` is an error reply |
| `SheetDashboard.FailedSubmissionHidden` | Task2_WebApp/app.py:157-158 | Appending a record whose reply generation failed leaves the clean table unchanged |
| `SheetDashboard.StrLessOrder` | Task2_WebApp/app.py:244 | String `<` on dates is a strict total order, so the date distribution is well ordered |
| `SheetDashboard.AdminOverviewSound` | Task2_WebApp/app.py:217-226 | Total = number of clean records (at least one); critical = number of them rated 2 or less, never more than the total |
| `SheetDashboard.AdminRatingsSound` | Task2_WebApp/app.py:235-237 | The rating distribution lists exactly the ratings that occur among the clean records, in strictly ascending order. Each has its number of clean records, which is positive, and the counts sum to the total |
| `SheetDashboard.AdminDatesSound` | Task2_WebApp/app.py:241-245 | The daily volume lists exactly the dates that occur among the clean records, in strictly ascending string order. Each has its number of clean records, which is positive, and the counts sum to the total |
| `SheetDashboard.AdminRecentSound` | Task2_WebApp/app.py:251-253 | The submissions table lists every clean record, newest first; none is an error reply when the reply column exists |
| `SheetDashboard.PublicFeed` | Task2_WebApp/app.py:154-169 | An empty sheet shows "no reviews yet". Otherwise the clean records are shown newest first; their count is shown exactly when at least one record survives cleaning and the sheet has a `rating` column |
| `CsvStore.ReviewStore.LoadData` | app.py:37-40 | A missing file loads as no records; an existing one as all stored rows |
| `CsvStore.ReviewStore.InitDb` | app.py:28-35 | A missing file is created with the eight headers and no rows; an existing file is left unchanged, so a second call does nothing |
| `CsvStore.ReviewStore.SaveEntry` | app.py:42-58 | The rows become the old rows followed by exactly the one new record; earlier rows are unchanged and the file exists afterwards |
| `CsvStore.SubmitReview` | app.py:118-121 | An empty review changes nothing; otherwise the record `Reviews.Intake` builds is appended |
| `CsvStore.PublicFeed` | app.py:127-144 | An empty table shows "no reviews yet". Otherwise the count is the number of stored records, and all of them are shown unfiltered, newest first |
| `CsvStore.AdminTable` | app.py:150-154 | The admin table shows every stored row, newest first; an empty table shows the notice |
| `CsvStore.SavedReviewShownFirst` | app.py:130-133 | After a save, the feed counts one more review and shows the new one first, ahead of what it showed before |

## Left out

- The Streamlit UI is not modelled: widgets, tabs, spinners, charts, `st.rerun`, `time.sleep` and the markdown rendering. The feeds and the admin view are modelled as the data they display.
- The Google Sheets connection, its credentials and `sheet.append_row` are foreign services. So are the "Database connection failed" and "Failed to save data" notices in `save_entry` (Task2_WebApp/app.py:64-89). Only the row it appends is modelled (`Reviews.ToRow`).
- The Gemini calls and the prompt texts are not modelled. The prompts only feed the foreign call, and each call's outcome is a parameter.
- CSV and spreadsheet serialisation are not modelled: header parsing, pandas' conversion of cells to numbers and back, and `get_all_records` keying. Records arrive typed.
- Mean rating (Task2_WebApp/app.py:164, 220; app.py:129) is a floating-point value and is not modelled. The other metrics are.
- Missing values are not modelled: `na=False`, `astype(str)`, the `'nan'` reply check (Task2_WebApp/app.py:178-188), and `row.get` defaults for missing columns when a row is displayed. Every modelled record has all eight fields.
- The "Trend data unavailable" branch (Task2_WebApp/app.py:246-247) is not modelled, since counting date strings cannot raise in the model.
- The random draws and the clock are parameters, as listed above.
- The bulk purge or rewrite of the store is not modelled. Neither source file has such an operation.
- Concurrent submissions and the races between them are not modelled.
- SheetDashboard.CleanSpec: letter case is folded for ASCII letters only. pandas' `case=False` also folds non-ASCII letters, but the three patterns are ASCII, so only a non-ASCII character that folds to an ASCII letter would be matched differently.
- SheetDashboard.LoadData: ASCII lower-casing stands in for Python's Unicode `str.lower()` on header names.
