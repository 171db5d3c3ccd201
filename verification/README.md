# Public-comment sentiment dashboard: data core in Dafny

The dashboard (`y.js`) uploads a file of public comments to an analysis
backend, turns the backend's reply into a list of comment records, and lets
the user search, filter by sentiment, page through, flag and export them.
This project models the part of `y.js` that derives data, as pure functions
over immutable values:

- `Comments`: the comment record and `processBackendResponse`. This covers
  the 75-character summary, the top five keywords, the lower-cased
  sentiment, the placeholder provision and the id numbering. It also holds
  the flag toggle of the table's click handler.
- `Filtering`: the search-and-sentiment predicate of
  `handleFilterAndSearch` and the filtered list it builds.
- `Pagination`: the page slice of `renderTable`, and the page count, button
  row and "Showing a-b of n" line of `renderPagination`.
- `Aggregation`: the sentiment tally of `updateAllVisuals` and the
  per-provision table of `renderProvisionChart`.
- `CsvExport`: the document `exportDataToCSV` builds. Its partner is a
  small reader in the style of RFC 4180 (section 2). It ends records with
  LF instead of CRLF, and it allows a quote inside an unquoted field.
- `Upload`: the file-extension check of `handleFileUpload`.
- `Dashboard`: the page state (`allComments`, `filteredComments`,
  `currentPage` and the two filter controls) and the handlers that change
  it. This includes the upload flow with the backend reply as a parameter.
- `Strings` and `Wrappers`: the JavaScript string operations used above,
  and `Option`/`Result`.

Some notes on how the model reads the code:

- Every handler that recomputes the filtered list also resets the page to
  1. Flagging does not change the filtered list's length. So the page
  cursor never goes stale. `Dashboard.Coherent` states this, and every
  handler is proved to keep it.
- `Dashboard.Consistent` is stronger. It adds that the filtered list is the
  filter of the full list and holds the same comment objects. Every handler
  keeps it except one kind of upload: a good reply without
  `overall_distribution`. There `processBackendResponse` replaces
  `allComments` (y.js:224) before `updateDashboardStats` throws on
  `counts.Positive` (y.js:235, 266). So the refilter at y.js:248 never
  runs, and the table keeps the old filtered list and page. A flag click
  then flips the new comment. The clicked button turns red at once
  (y.js:422), because it shows the new comment's flag. The comment object
  the table holds keeps its flag, so the next render of the page, for
  example after a page button, shows the row unflagged again
  (`Dashboard.HalfFinishedUploadDiverges`). The next search, sentiment
  change or complete upload makes the state consistent again
  (`Dashboard.CompleteUploadRepairs`).
- `updateAllVisuals` (y.js:251-262) is defined but never called in `y.js`.
  Its tally is modelled all the same.
- The export quotes the keyword cell without doubling the quotes inside it
  (y.js:478), while the text cell doubles them (y.js:479). Sentiment and
  provision are written unquoted. The export reads back when these fields
  are plain (`CsvExport.Exportable`). Suppose the first quote in the joined
  keywords is followed by a character other than a quote, comma or line
  break. Then the record is unreadable
  (`CsvExport.KeywordQuoteBreaksRecord`).
- The summary equals the text when the text has at most 75 characters. It
  also does when the text has exactly 78 characters and ends in "...".

## Model

| member | source | states |
|---|---|---|
| Comments.Summarize | y.js:228 | The summary is the text itself when it has at most 75 characters. Otherwise it is the first 75 characters followed by "...", 78 in all. |
| Comments.SummaryIsTextIff | y.js:228 | The summary equals the text exactly when the text has at most 75 characters, or has 78 and ends in "...". |
| Comments.TopKeywords | y.js:223 | The keywords are the first min(5, n) keys of the word-cloud map, in order. A missing map gives none. |
| Comments.ProcessBackendResponse | y.js:221-232 | There is one comment per backend result, in order. The i-th has id i+1, its text, the lower-cased sentiment, the summary of its text, the top keywords, the placeholder provision, and is not flagged. A missing result list gives no comments. |
| Comments.ProcessedIsWellFormed | y.js:224-232 | Processed comments have distinct ids. Each has an id of at least 1, the summary of its own text, a lower-case sentiment, at most 5 keywords and the placeholder provision. |
| Comments.FindById | y.js:416 | `find` returns the first comment with the id, or reports that none has it. |
| Comments.ToggleFlag | y.js:415-423 | Flipping a flag changes only the flag of the first comment with the clicked id. Every other field and comment is untouched. |
| Comments.ToggleTwice | y.js:421 | Flipping the same comment's flag twice restores the list. |
| Comments.ToggleProcessed | y.js:224-225 | On a freshly processed list, clicking id k flags exactly the k-th comment. |
| Filtering.FilterComments | y.js:394-404 | The filtered list is the subsequence of the comments that match both the search and the sentiment. Each kept comment appears as often as in the full list. |
| Filtering.FilterIdentityIff | y.js:394-404 | The filter returns the whole list exactly when every comment matches. |
| Filtering.FilterIdempotent | y.js:394-404 | Filtering a filtered list again changes nothing. |
| Filtering.ShowAllWhenUnfiltered | y.js:395-401 | An empty search with sentiment "all" keeps every comment. |
| Filtering.ToggleCommutesWithFilter | y.js:416-421 | The filtered list shares its comment objects with the full list. So flipping a flag in the full list is the same as flipping it in the filtered one, provided ids are distinct. |
| Strings.Lower | y.js:391 | Lower-casing keeps the length and maps every character through ASCII lower-casing. |
| Strings.ContainsIff | y.js:396-399 | `includes` finds the search text exactly when it occurs at some position. |
| Strings.CapitalizeInjective | y.js:253 | Distinct lower-case sentiments get distinct capitalised keys. |
| Strings.DecimalRoundTrip | y.js:475 | The id written in decimal parses back to the id. |
| Pagination.PageSlice | y.js:306 | For page >= 1, the page holds at most 5 rows. It is empty exactly when the page starts past the end. Otherwise it is the filtered rows from (page-1)*5 up to min(page*5, n). |
| Pagination.TotalPages | y.js:339 | The page count is the ceiling of n/5. It is 0 exactly when n is 0. |
| Pagination.Controls | y.js:353-359 | The buttons are Prev, pages 1..total, then Next. Prev is disabled on page 1. Next is disabled on the last page or when there are no pages. The current page is marked. |
| Pagination.OneCurrentButton | y.js:355-357 | Exactly one button is marked current when the page is in range, and none otherwise. |
| Pagination.InfoMatchesPage | y.js:361-363 | For an in-range page, "Showing a-b of n" names the rows the table shows. For no rows it reads 0-0. |
| Aggregation.SentimentTally | y.js:252-256 | The tally always has the keys Positive, Negative and Neutral. |
| Aggregation.TallyCounts | y.js:252-256 | The tally's keys are the three initial ones plus each comment's capitalised sentiment. Each key's value is the number of comments with that key. |
| Aggregation.TallyConserves | y.js:252-256 | With only known sentiments, the three counts add up to the number of comments. |
| Aggregation.TallyMatchesFilter | y.js:253-254 | A sentiment's tally equals the size of the list filtered by that sentiment with an empty search. |
| Aggregation.RowIndex | y.js:368 | The provision lookup finds the row with that provision, or reports that there is none. |
| Aggregation.AddCommentPreserves | y.js:368-370 | Adding a comment keeps the provision table distinct and covering, with correct counts. |
| Aggregation.ProvisionTableDescribes | y.js:367-371 | The provision table has one row per distinct provision. Each row's three counts are the numbers of comments with that provision and sentiment. |
| Aggregation.ProvisionConserves | y.js:367-377 | With only known sentiments, a row's three counts add up to that provision's number of comments. |
| CsvExport.ExportCsv | y.js:465-470 | An empty filtered list is refused with "No data to export.". Otherwise the document is a data URI of CSV. |
| CsvExport.ReadEscaped | y.js:479 | A text with its quotes doubled, inside quotes, reads back as the exact text. |
| CsvExport.RowReadsBack | y.js:473-481 | The record of an exportable comment reads back as its id, sentiment, provision, joined keywords and text. |
| CsvExport.HeaderReadsBack | y.js:471 | The header line reads back as its five column names. |
| CsvExport.BodyReadsBack | y.js:473-482 | The records read back one per comment, in order. |
| CsvExport.ExportReadsBack | y.js:465-482 | For a non-empty list of exportable comments, the CSV after the data-URI prefix reads back as the header followed by each comment's fields, in order. |
| CsvExport.KeywordQuoteBreaksRecord | y.js:478 | Take a comment whose sentiment and provision are plain, with no comma, quote or line break. If the first quote of the joined keywords is followed by a character other than a quote, comma or line break, the record cannot be read. |
| Upload.LastSegment | y.js:498 | `split('.').pop()` is the dot-free suffix of the name, preceded by a dot unless it is the whole name. |
| Upload.LastSegmentWithoutDot | y.js:498 | A name without a dot is its own last segment. |
| Upload.LastSegmentAfterDot | y.js:498 | The last segment is everything after the last dot. |
| Upload.IsAllowedIff | y.js:497-500 | A file is accepted exactly when its lower-cased name is csv, txt, xls or xlsx, or ends in a dot followed by one of them. |
| Dashboard.Refilter | y.js:390-407 | Refiltering goes back to page 1 and changes nothing but the filtered list. That list becomes the filter of all comments under the current controls, shares their objects, and is a subsequence of them. When ids are distinct the state becomes consistent. |
| Dashboard.Initialize | y.js:563-566 | The initial state has no comments, shows page 1, keeps the controls' values and is consistent. |
| Dashboard.Search | y.js:551 | Typing in the search box records the text and goes back to page 1. The comments and the drop-down stay as they were, and the filtered list becomes their filter under the new text. It makes any coherent state consistent. |
| Dashboard.SelectSentiment | y.js:552 | Choosing a sentiment records it and goes back to page 1. The comments and the search text stay as they were, and the filtered list becomes their filter under the new sentiment. It makes any coherent state consistent. |
| Dashboard.PrevPage | y.js:353 | Prev moves one page back unless on page 1, and changes nothing else. |
| Dashboard.NextPage | y.js:359 | Next moves one page on unless on the last page or when there are no pages, and changes nothing else. |
| Dashboard.GoToPage | y.js:356 | A page button moves to that page and changes nothing else. |
| Dashboard.PagingPreservesConsistent | y.js:353-359 | The enabled paging buttons keep the page in range. |
| Dashboard.PagingPreservesCoherent | y.js:353-359 | The same holds in any coherent state, such as the one after a half-finished upload. |
| Dashboard.Flag | y.js:421 | Flagging flips the flag of the first comment in the full list with the clicked id and changes nothing else there. When the table's list shares the full list's objects it is toggled the same way. Otherwise it is unchanged. The page and the controls stay as they were. |
| Dashboard.FlagPreservesConsistent | y.js:416-422 | After a flag the filtered list is still the filter of the full list, and the page stays in range. |
| Dashboard.FlagTwice | y.js:421 | Flagging the same comment twice restores the state. |
| Dashboard.FlagPreservesCoherent | y.js:416-422 | A flag keeps every reachable state coherent. This includes the state after a half-finished upload, where only the full list's comment flips. |
| Dashboard.EmptyStateIff | y.js:306-310 | In a coherent state, the table shows its empty message exactly when its list is empty. It never shows more than 5 rows. |
| Dashboard.ServerError | y.js:520 | A failed analysis always has a non-empty message. A non-empty server error is passed on as it is. A missing or empty one falls back to "An unknown error occurred.". |
| Dashboard.HandleFileUpload | y.js:493-533 | With no file, nothing happens. A refused extension gives only the error notice. Otherwise a processing notice comes first. A failed reply then leaves the state as it was and reports "Error: " with the message. A good reply replaces the comments with the processed response. With `overall_distribution` present, it refilters under the unchanged controls, so the table holds the new comment objects, goes back to page 1 and reports completion. Without it, it keeps the old filtered list, page and controls, and reports the TypeError. |
| Dashboard.UploadPreservesConsistent | y.js:493-533 | Every upload except a half-finished one leaves a consistent state consistent. |
| Dashboard.UploadPreservesCoherent | y.js:493-533 | Whatever the backend replies, an upload leaves a coherent state coherent. |
| Dashboard.HalfFinishedUploadDiverges | y.js:224-248 | Take a good upload of comment "a", then a good reply of comment "b" without `overall_distribution`. The table still shows "a" as comment 1, and its list is not the filter of the new comments. Clicking that row's flag flips the new comment 1, so the button turns red at once. The comment the table holds keeps its flag, so the next render of the page shows the row unflagged. |
| Dashboard.CompleteUploadRepairs | y.js:224-248 | After a good reply with `overall_distribution`, the state is consistent whatever it was before, including after a half-finished upload. |

## Left out

- The 3D background, login and logout, navigation, the chat widget and the
  view modal (y.js:1-217, 426-463, 571-622) are outside the data core.
- Chart drawing (Chart.js), the DOM rows, the keyword list
  (`updateKeywordList`), the AI summary card and the toast timer are
  outside it too. The model keeps the values they display: the tally, the
  provision table, the buttons, the slice, the info line and the notices.
  The loading overlay of `handleFileUpload` and the reset of the file
  input are left out as well. The overlay appears after the extension
  check (y.js:505). The `finally` hides it and clears the input (y.js:530,
  532). A refused extension returns before either (y.js:502), so a refused
  file stays in the input.
- The percentage text of `updateDashboardStats` (`toFixed(1)`) is left out
  because it is floating point. The counts in `overall_distribution` are
  only displayed, so the model keeps only whether that field is present.
- Dashboard.HandleFileUpload: a `null` `overall_distribution` is treated
  like a missing one. V8 then names `null` rather than `undefined` in the
  message. A present value is taken to be an object. A number or string
  there would not throw. `MissingDistributionError` is V8's wording, and
  other engines word the TypeError differently.
- Dashboard.HandleFileUpload: `v` is the state when the reply arrives, not
  when the file was picked. Other handlers may run during the `await`
  (y.js:512-517). The model sees their effect only through `v`.
- `fetch`, `response.json()` and the network are left out. The reply is a
  parameter (`Dashboard.Reply`): a transport failure, a body that is not
  JSON, or parsed JSON with the `ok` flag.
- `encodeURI` and the download link of the export are left out. The model
  stops at the CSV text behind the data-URI prefix, and so does
  CsvExport.ExportReadsBack. `encodeURI` does not escape `#`, which starts
  a data URI's fragment. So the downloaded file would end at the first `#`
  in any field.
- `toLowerCase` and `toUpperCase` are modelled on ASCII letters only.
  Lengths count Dafny characters, not UTF-16 code units.
- The enumeration order of `Object.keys` is taken as the order of the
  word-cloud entries (y.js:223). For the provision chart it is taken as
  the order in which provisions first occur (y.js:373). JavaScript lists
  integer-like keys first, and that rule is not modelled in either place.
- A backend result without `comment` or `sentiment` makes `y.js` throw
  inside `processBackendResponse`. The upload's catch block then reports the
  error. The model assumes both fields are present.
- Dashboard.Flag: any id is accepted. The source only receives the ids of
  the rows on the current page (y.js:314, 414-416).
- Comments.ToggleFlag: for an id that no comment has, the list stays
  unchanged. The source instead throws a TypeError before assigning
  anything, so its state is unchanged as well.
- Aggregation.ProvisionTableDescribes: a sentiment other than positive,
  negative or neutral becomes `undefined++` (NaN) under its own key in the
  source. That key is never read, so the model leaves the three counts
  unchanged and keeps no such key.
- CsvExport.ExportReadsBack: the round trip is stated only for comments
  whose sentiment and provision are plain, with no comma, quote or line
  break, and whose keywords hold no quote. Some other comments do not read
  back at all (see CsvExport.KeywordQuoteBreaksRecord).
- `t.py`, a separate Flask app serving `/`, `/time` and `/greet`, is not
  part of this model. It is not the analysis backend that `/analyze`
  (y.js:512) calls.
