# Disaster reporting: a verified model of the report store and its rules

This project models the data core of a small disaster-reporting web application. The browser
pages themselves are not modelled. What is modelled:

- the in-memory report store (`mockDisasters`). Its three operations change it in place:
  - `addDisaster` puts a new report at the front;
  - `updateDisasterStatus` sets the status of the first report with an id;
  - `addDisasterResponse` appends a response to that report.
- the React-context variant of the store. It builds new lists instead: a prepend, and a
  map-and-merge update by id.
- the query rules:
  - the public list's search plus type and severity filters;
  - the admin table's search, which also looks at the type label;
  - the status subsets of the actions page;
  - the three dashboard counts.
- the input handling:
  - the report form's required-field check and the input it builds;
  - the admin response form: the empty-message check, the comma-split-and-trim of the resources
    text, and empty text read as absent.
- the exporter: the CSV file, with quote doubling in the style of section 2 of RFC 4180, and the
  row layout of the PDF (truncation, shading and the page-break counter).
- the route table of the application shell: the role guards of the user and admin portals, the
  root redirect and logging out.

The module-level store is a class, `ReportStore.Store`. Its `reports` field is a `seq<Report>`,
and its methods reassign that field. `Math.random` ids and `new Date()` readings are two oracles
the store owns:
- `genId(k)` is the k-th generated id;
- `clock(k)` is the k-th clock reading, an abstract millisecond count that never decreases.

The counters `idCalls` and `clockCalls` record how many of each have been used. The invariant
`Valid()` says the clock is monotone, and that every report was updated no earlier than it was
reported and no later than the current clock. Nothing makes generated ids unique. Where a
property needs unique ids, the lemma says so in its `requires`.

The pure parts are functions over datatypes. A page's state setters are modelled as the values
a handler returns. A CSV reader in the style of RFC 4180 (`Csv.ReadCsv`) is the partner of the
writer: the round-trip lemmas prove what the exported text means.

Modules and files:

| file | module | models |
|---|---|---|
| wrappers.dfy | Wrappers | `Option` |
| strings.dfy | Strings | ASCII lower-casing, substring search, `split`, `join`, `trim` |
| seqs.dfy | Seqs | `filter` and its laws |
| types.dfy | Types | the entities of `src/types/index.ts` and the label tables |
| store.dfy | ReportStore | `src/data/mockData.ts` |
| context.dfy | DisasterContext | `src/context/DisasterContext.tsx` |
| disasters_page.dfy | DisastersPage | `src/pages/DisastersPage.tsx` |
| disaster_table.dfy | DisasterTable | `src/components/admin/DisasterTable.tsx` |
| admin_dashboard.dfy | AdminDashboard | `src/pages/admin/AdminDashboard.tsx` |
| admin_actions.dfy | AdminActions | `src/pages/admin/AdminActions.tsx` |
| csv.dfy | Csv | quoting and a reader for the exported text |
| export.dfy | Export | `src/utils/exportUtils.ts` |
| disaster_form.dfy | DisasterForm | `src/components/disasters/DisasterForm.tsx` |
| admin_disaster_detail.dfy | AdminDisasterDetail | `src/pages/admin/AdminDisasterDetail.tsx` |
| app.dfy | App | `src/App.tsx` |

## Model

| member | source | states |
|---|---|---|
| Types.StatusLabelRoundTrip | src/data/mockData.ts:33-39 | every status label reads back as its status, so the five labels are distinct |
| Types.TypeLabel | src/data/mockData.ts:8-22 | the `disasterTypes` label of each type; `Export.LabelsAreBare` proves none needs quoting in the CSV |
| Types.SeverityLabel | src/data/mockData.ts:25-30 | the `severityLevels` label of each severity; `Export.LabelsAreBare` proves none needs quoting |
| Types.StatusLabel | src/data/mockData.ts:33-39 | the `statusTypes` label of each status; `Types.StatusLabelRoundTrip` reads each back as its status and `Export.LabelsAreBare` proves none needs quoting |
| ReportStore.FindIndex | src/data/mockData.ts:219 | `findIndex`: -1 or a position holding the id, and no earlier position holds it |
| ReportStore.Find | src/pages/admin/AdminDisasterDetail.tsx:44 | `find` finds nothing exactly when no report has the id; otherwise it finds the report at the first position with the id |
| ReportStore.FindIndexSameIds | src/data/mockData.ts:219 | the lookup depends on the ids alone |
| ReportStore.NewReport | src/data/mockData.ts:205-211 | the new report has status Reported, the given id and timestamps, and every submitted field copied from the input |
| ReportStore.NewResponse | src/data/mockData.ts:232-237 | the new response has the given id, its parent's id as `disasterId`, the creation time, and the supplied responder, message, action and resources |
| ReportStore.WithStatus | src/data/mockData.ts:219-225 | same length; an unknown id changes nothing; only the first match gets the new status and `updatedAt`; every other position is unchanged |
| ReportStore.WithResponse | src/data/mockData.ts:230-248 | same length; an unknown id changes nothing; the first match gets its old response list (absent read as empty) plus exactly the new response, and a fresh `updatedAt`; the rest is unchanged |
| ReportStore.FindAfterStatusUpdate | src/data/mockData.ts:219-223 | after a status update on a known id, the lookup finds the old report with only status and `updatedAt` changed |
| ReportStore.FindAfterResponse | src/data/mockData.ts:239-244 | after a response is added on a known id, the lookup finds the earlier responses in order followed by the new one, and a fresh `updatedAt` |
| ReportStore.FindIndexAfterPrepend | src/data/mockData.ts:213 | after a prepend the new report is found first, and every other id is found one position further down |
| ReportStore.StatusUpdateNoEarlier | src/data/mockData.ts:219-223 | a status update stamped no earlier than the list's times leaves every report's `updatedAt` where it was or later |
| ReportStore.ResponseNoEarlier | src/data/mockData.ts:239-244 | adding a response stamped no earlier than the list's times leaves every report's `updatedAt` where it was or later |
| ReportStore.Seed | src/data/mockData.ts:42-166 | `mockDisasters` holds five sample reports |
| ReportStore.SeedSamples | src/data/mockData.ts:42-166 | the samples in order have generated ids 0, 2, 3, 4 and 6, statuses responding, reviewing, responding, resolved and reported, and severities critical, high, critical, medium and high |
| ReportStore.SeedIdsUnique | src/data/mockData.ts:42-166 | with an id generator that never repeats itself, no two sample reports share an id |
| ReportStore.FiveIdsUnique | src/data/mockData.ts:42-166 | five reports carrying the generated ids 0, 2, 3, 4 and 6 of a generator that never repeats have unique ids |
| ReportStore.SeedTimesOrdered | src/data/mockData.ts:42-166 | under a monotone clock, every sample report was updated no earlier than it was reported |
| ReportStore.Store.constructor | src/data/mockData.ts:42-166 | the store starts with the five samples, after 7 id generations and 12 clock readings, and satisfies its invariant |
| ReportStore.Store.GenerateId | src/data/mockData.ts:5 | returns the next id of the oracle and uses it up |
| ReportStore.Store.Now | src/data/mockData.ts:208 | returns the next clock reading and keeps the invariant |
| ReportStore.Store.AddDisaster | src/data/mockData.ts:204-215 | the list becomes the new report followed by the old list; the report is built from one id and two successive clock readings; the invariant is kept |
| ReportStore.Store.UpdateDisasterStatus | src/data/mockData.ts:218-226 | the list becomes `WithStatus` of the old one at the next clock reading; null and no clock reading for an unknown id; otherwise the updated report is returned; no report's `updatedAt` moves backwards |
| ReportStore.Store.AddDisasterResponse | src/data/mockData.ts:229-249 | unknown id: null, and neither the list nor the oracles change; known id: the new response for that parent is returned and the list becomes `WithResponse` of the old one; no report's `updatedAt` moves backwards |
| DisasterContext.AddDisaster | src/context/DisasterContext.tsx:21-35 | one `now` for both timestamps, status Reported, an empty response list, the other fields from the input; the next list is the new report followed by the old list |
| DisasterContext.Merge | src/context/DisasterContext.tsx:39 | every key the update has wins and every key it lacks keeps the report's value, field by field; `updatedAt` is always `now` |
| DisasterContext.MergeNoChange | src/context/DisasterContext.tsx:39 | an update with no keys only refreshes `updatedAt` |
| DisasterContext.MergeIgnoresUpdatedAt | src/context/DisasterContext.tsx:39 | an `updatedAt` in the update never reaches the result, because the timestamp is spread last |
| DisasterContext.MergeIdempotent | src/context/DisasterContext.tsx:39 | the same update twice at the same time equals the update once |
| DisasterContext.MergeThen | src/context/DisasterContext.tsx:39 | two successive updates equal one update in which the later keys win, at the later time |
| DisasterContext.UpdateDisaster | src/context/DisasterContext.tsx:37-41 | same length and order; reports with another id are unchanged; every report with the id becomes its merge |
| DisasterContext.UpdateUnknownId | src/context/DisasterContext.tsx:39 | an id no report carries leaves the list as it was |
| DisasterContext.UpdateKeepsIds | src/context/DisasterContext.tsx:39 | an update without an id keeps every id in its place |
| DisasterContext.FindAfterUpdate | src/context/DisasterContext.tsx:37-41 | after an update of a known id, the lookup finds the merge of what it found before |
| DisastersPage.Filtered | src/pages/DisastersPage.tsx:30-46 | every kept report is in the list and passes all three filters; every report of the list that passes them is kept |
| DisastersPage.FilteredIsSubsequence | src/pages/DisastersPage.tsx:30 | the result is the list with some reports deleted, in their order |
| DisastersPage.FilteredMembership | src/pages/DisastersPage.tsx:45 | a report is shown if and only if it matches the search, the type and the severity |
| DisastersPage.SearchIsSubstring | src/pages/DisastersPage.tsx:32-36 | the search is exactly substring search of the lower-cased term in title, location or description; the empty term matches everything |
| DisastersPage.ConcreteFilters | src/pages/DisastersPage.tsx:39-43 | "all" keeps everything; a concrete type or severity keeps exactly the reports equal to it |
| DisastersPage.ResetFilters | src/pages/DisastersPage.tsx:49-53 | the reset state is the empty term and "all" twice, and it keeps every report |
| DisastersPage.ResetShowsAll | src/pages/DisastersPage.tsx:49-53 | after a reset the filtered list is the full list |
| DisastersPage.SearchAndSeverity | src/pages/DisastersPage.tsx:32-45 | search plus severity equals the search result filtered by severity alone: their intersection, in list order |
| DisasterTable.Search | src/components/admin/DisasterTable.tsx:44-52 | every shown report is in the table and matches title, location, type label or description; every matching report is shown |
| DisasterTable.SearchIsSubsequence | src/components/admin/DisasterTable.tsx:44 | the search keeps the table's order |
| DisasterTable.SearchMembership | src/components/admin/DisasterTable.tsx:45-51 | a report is shown if and only if it matches |
| DisasterTable.EmptyTermKeepsAll | src/components/admin/DisasterTable.tsx:45-51 | the empty term shows the whole table |
| DisasterTable.PageSearchImpliesTableSearch | src/components/admin/DisasterTable.tsx:45-51 | whatever the public page's search shows, the table's search shows too |
| DisasterTable.ReplaceById | src/components/admin/DisasterTable.tsx:58-60 | same length; entries with another id are unchanged; every entry with the id becomes the updated report |
| DisasterTable.ReplaceAgreesWithStore | src/components/admin/DisasterTable.tsx:55-60 | with unique ids, patching the table's copy with the store's returned report gives the store's new list |
| DisasterTable.HandleStatusChange | src/components/admin/DisasterTable.tsx:54-67 | the store takes the status update; no id is generated and the clock is read once exactly when the id is known; an unknown id leaves the table's copy as it was; otherwise the copy is patched with the report the store updated |
| DisasterTable.ExportCsv | src/components/admin/DisasterTable.tsx:69-74 | the table exports what its search shows with the exporter as written; when its rows are readable, the file reads back as the header and one record per shown report, in table order, with that report's id, title, location and status |
| DisasterTable.ExportIsOfSearch | src/components/admin/DisasterTable.tsx:69-74 | when no unquoted cell of a table row holds a comma, quote or line break, the export reads back as the header and exactly the searched reports' values, in table order |
| AdminDashboard.DashboardStats | src/pages/admin/AdminDashboard.tsx:11-17 | the total is the list's length; the active and critical counts do not exceed it |
| AdminDashboard.ActiveResolvedClosed | src/pages/admin/AdminDashboard.tsx:12-14 | active plus resolved plus closed adds up to the total |
| AdminDashboard.CriticalCount | src/pages/admin/AdminDashboard.tsx:15-17 | the critical count and the number of other reports add up to the total |
| AdminDashboard.FiveActive | src/pages/admin/AdminDashboard.tsx:12-14 | five reports of which only the fourth is resolved or closed count 4 active |
| AdminDashboard.FiveCritical | src/pages/admin/AdminDashboard.tsx:15-17 | five reports of which the first and third are critical count 2 critical |
| AdminDashboard.SeedStats | src/pages/admin/AdminDashboard.tsx:11-17 | over the sample reports the dashboard shows 5 in all, 4 active and 2 critical |
| AdminActions.ByStatus | src/pages/admin/AdminActions.tsx:25-27 | exactly the reports with the status: each result has it, and each report with it is in the result |
| AdminActions.ByStatusIsSubsequence | src/pages/admin/AdminActions.tsx:26 | the subset keeps store order |
| AdminActions.StatusCountsAddUp | src/pages/admin/AdminActions.tsx:25-27 | the five per-status counts add up to the number of reports |
| AdminActions.ExportSelection | src/pages/admin/AdminActions.tsx:30-35 | no status: the whole store; a status: exactly the reports with it, as many as the count shown next to that status button |
| AdminActions.HandleBatchAction | src/pages/admin/AdminActions.tsx:50-55 | the store and its oracles are left exactly as they were |
| Csv.Escape | src/utils/exportUtils.ts:28 | the escaped text is one character longer per double quote |
| Csv.Quote | src/utils/exportUtils.ts:28-35 | the `"..."` wrapping of an escaped cell; `Csv.QuoteRoundTrip` reads every quoted field back as its text |
| Csv.ReadEscaped | src/utils/exportUtils.ts:28 | an escaped body followed by the closing quote reads back as the original text |
| Csv.QuoteRoundTrip | src/utils/exportUtils.ts:28-31 | a quoted field, followed by a comma, a line break or the end, reads back as the original text |
| Csv.BareRoundTrip | src/utils/exportUtils.ts:26-27 | a field with no comma, quote or line break reads back as itself without quotes |
| Csv.FieldRoundTrip | src/utils/exportUtils.ts:25-38 | every encoded cell reads back as its value |
| Csv.RecordRoundTrip | src/utils/exportUtils.ts:38 | the comma-joined cells of a record read back as that record |
| Csv.LinesRoundTrip | src/utils/exportUtils.ts:41 | lines of encoded records joined by line breaks read back as the records, in order |
| Csv.FileRoundTrip | src/utils/exportUtils.ts:41 | a header line, a line break and the joined rows read back as the header record followed by the row records |
| Export.OrNA | src/utils/exportUtils.ts:36-37 | an empty text becomes `N/A`; any other text is kept verbatim |
| Export.CsvHeaders | src/utils/exportUtils.ts:9-21 | the twelve column names in order; `Export.HeadersAreBare` proves none needs quoting |
| Export.CsvHeaderLine | src/utils/exportUtils.ts:9-22 | the names joined by commas; `Export.HeaderEncodes` reads it back as the twelve names |
| Export.HeadersAreBare | src/utils/exportUtils.ts:9-21 | no column name holds a comma, quote or line break |
| Export.CsvValues | src/utils/exportUtils.ts:25-38 | one value per header column |
| Export.CsvCells | src/utils/exportUtils.ts:25-38 | twelve cells, one per header column |
| Export.CsvRow | src/utils/exportUtils.ts:25-38 | the cells joined by commas; `Export.RowEncodes` and `Export.RowAsReadEncodes` state what a reader finds in it |
| Export.CsvRows | src/utils/exportUtils.ts:25 | one row per report, in input order |
| Export.CsvContent | src/utils/exportUtils.ts:41 | the file starts with the header line and a line break; with no reports it is exactly that |
| Export.ExpectedRecords | src/utils/exportUtils.ts:9-41 | the header record, then one record of values per report, in order |
| Export.LabelsAreBare | src/data/mockData.ts:8-39 | no type, severity or status label needs quoting |
| Export.HeaderEncodes | src/utils/exportUtils.ts:9-22 | the header line is the comma-join of the twelve names, each written bare |
| Export.RowEncodes | src/utils/exportUtils.ts:25-38 | a row's cells encode its values whenever its unquoted cells hold no comma, quote or line break |
| Export.CsvRoundTrip | src/utils/exportUtils.ts:7-41 | as written, the file reads back as the header and the reports' values, provided the unquoted cells are bare |
| Export.FieldsAsWritten | src/utils/exportUtils.ts:25-38 | the fields a reader finds in a row as written: the first eight are the id, type label, title, description, location, affected area, severity label and status label |
| Export.RecordsAsWritten | src/utils/exportUtils.ts:7-41 | the header record, then one record of fields as written per report, in order |
| Export.RowAsReadText | src/utils/exportUtils.ts:25-38 | cutting the unquoted time, contact and email cells at their commas leaves the row's text unchanged |
| Export.RowAsReadEncodes | src/utils/exportUtils.ts:25-38 | in a readable row, the cut cells encode the fields a reader finds |
| Export.CsvAsWrittenRoundTrip | src/utils/exportUtils.ts:7-41 | as written, the file reads back record by record whenever the ids need no quoting and the time, contact and email cells hold no quote or line break; commas there only add fields |
| Export.RecordsAsWrittenKeepText | src/utils/exportUtils.ts:25-38 | the records as written hold each report's id, title, location and status label in columns 0, 2, 4 and 7 |
| Export.CsvAsWrittenKeepsText | src/utils/exportUtils.ts:7-41 | read back, a readable export as written gives the header and, per report and in order, its id, title, location and status |
| Export.FieldsAsWrittenWhenBare | src/utils/exportUtils.ts:26-37 | when the unquoted cells hold no comma either, the fields read back are exactly the report's values |
| Export.CsvRowAmbiguous | src/utils/exportUtils.ts:36-37 | as written, two different reports can give the same row |
| Export.CsvCellsQuoted | src/utils/exportUtils.ts:25-38 | the corrected row: twelve cells, every free-text cell quoted |
| Export.RowQuotedEncodes | src/utils/exportUtils.ts:25-38 | every corrected row's cells encode its values, whatever they hold |
| Export.CsvQuotedRoundTrip | src/utils/exportUtils.ts:7-41 | every corrected export reads back as the header and the reports' values, in order |
| Export.PdfTitle | src/utils/exportUtils.ts:93 | a title up to 20 characters is kept; a longer one becomes its first 17 and `...`; the result has at most 20 |
| Export.PdfLocation | src/utils/exportUtils.ts:94 | a location up to 15 characters is kept; a longer one becomes its first 12 and `...`; the result has at most 15 |
| Export.PdfCells | src/utils/exportUtils.ts:90-97 | six cells: the type label, the title cut to at most 20, the location cut to at most 15, the severity and status labels, the formatted date |
| Export.Advance | src/utils/exportUtils.ts:104-110 | a row position between 20 and 280 advances to one between 20 and 280, on the same page or at 20 on the next |
| Export.RowPosition | src/utils/exportUtils.ts:80-111 | every row is placed between 20 and 280 on its page |
| Export.LayoutPdfRows | src/utils/exportUtils.ts:81-112 | one placed row per report, each at `RowPosition(i)`; every row lies between 20 and 280; exactly the even rows are shaded |
| Export.RowPositionClosedForm | src/utils/exportUtils.ts:81-111 | rows 0 to 28 are on the first page from 50 in steps of 8; each later page holds 33 rows from 20 |
| Strings.OptionalText | src/components/disasters/DisasterForm.tsx:72 | the empty text is absent, any other is kept as is; the form uses it for the organization and the response form for the action taken |
| DisasterForm.BuildInput | src/components/disasters/DisasterForm.tsx:61-74 | the form reads back from the input it builds; no coordinates, images or responses; the organization is absent exactly when its text is empty |
| DisasterForm.Validate | src/components/disasters/DisasterForm.tsx:51-74 | rejected if and only if a required field is empty; otherwise an input that copies the form's fields, with no coordinates, images or responses; the organization is absent exactly when its text is empty |
| DisasterForm.OptionalFieldsNeverReject | src/components/disasters/DisasterForm.tsx:51 | the affected area and the organization never decide rejection |
| DisasterForm.EmptyFormRejected | src/components/disasters/DisasterForm.tsx:24-35 | the initial form is rejected |
| DisasterForm.FormRoundTrip | src/components/disasters/DisasterForm.tsx:61-74 | every input the form can produce is built back from the form it is typed into |
| DisasterForm.HandleSubmit | src/components/disasters/DisasterForm.tsx:48-86 | a missing field adds nothing and does not navigate; otherwise exactly one report built from the form is prepended, and the page navigates to `/disasters/` + its id |
| AdminDisasterDetail.ParseResources | src/pages/admin/AdminDisasterDetail.tsx:95 | the empty text gives no list; otherwise one entry per comma-separated piece, the i-th being the trim of the i-th piece, so one per comma plus one, each free of commas and trimmed at both ends |
| AdminDisasterDetail.ResourcesRoundTrip | src/pages/admin/AdminDisasterDetail.tsx:95 | comma-free pieces without whitespace at their ends, joined by commas with any whitespace around each piece, parse back as exactly those pieces; only the empty text is refused |
| AdminDisasterDetail.ResponseOf | src/pages/admin/AdminDisasterDetail.tsx:87-96 | the fixed coordinator as responder and the message as typed; a non-empty action kept as typed, an empty one absent; resources absent exactly when empty, otherwise the trimmed comma-separated pieces |
| AdminDisasterDetail.Open | src/pages/admin/AdminDisasterDetail.tsx:44-63 | not found if and only if no report has the id; otherwise the report at the first position with the id, its status selected and the form empty |
| AdminDisasterDetail.OpenFindsReport | src/pages/admin/AdminDisasterDetail.tsx:44 | with unique ids, opening a report's id shows that report |
| AdminDisasterDetail.HandleStatusChange | src/pages/admin/AdminDisasterDetail.tsx:65-75 | the select shows the new status whatever the store does; the store takes the status update; a report is returned exactly when the id was found, and it is the store's updated report; no id is generated and the clock is read once exactly when a report is returned |
| AdminDisasterDetail.HandleAddResponse | src/pages/admin/AdminDisasterDetail.tsx:77-109 | an empty message or an unknown id changes nothing, not even the oracles; otherwise the store adds the response built from the form, using one generated id and two clock readings; the form is cleared exactly when a response was created |
| App.PathRoundTrip | src/App.tsx:36-92 | every well-formed route's path selects that route |
| App.MatchedPathRoundTrip | src/App.tsx:36-92 | every path that selects a route is that route's path |
| App.RouteElement | src/App.tsx:94 | the not-found page renders exactly for the unmatched route |
| App.HandleLogout | src/App.tsx:26-28 | after logging out there is no current user |
| App.RouteOfSegments | src/App.tsx:36-92 | a matched route is well-formed and its segments are exactly the ones matched |
| App.MatchRoute | src/App.tsx:36-94 | a path without a leading slash matches nothing; every matched route is well-formed |
| App.Render | src/App.tsx:36-94 | the not-found page renders exactly when the path matches no route |
| App.RootRouting | src/App.tsx:36-49 | at `/` the login page shows if and only if nobody is logged in; an admin goes to `/admin`, a user to `/disasters` |
| App.UserGuard | src/App.tsx:51-70 | a user-portal page renders if and only if the current user has role user; everybody else goes to `/` |
| App.AdminGuard | src/App.tsx:73-92 | an admin-portal page renders if and only if the current user has role admin; everybody else goes to `/` |
| App.PortalsExclusive | src/App.tsx:51-92 | no current user sees a page of each portal |
| App.LogoutGuardsEverything | src/App.tsx:26-28 | after logging out every portal route redirects to `/`, and `/` shows the login page |
| App.UnmatchedIsNotFound | src/App.tsx:94 | a path without a leading slash renders the not-found page whoever is logged in |
| App.DeepPathNotFound | src/App.tsx:61-65 | a detail path with an extra segment renders the not-found page |
| App.RootPathRoute | src/App.tsx:37 | `/` selects the root route |
| App.AdminPathRoute | src/App.tsx:73 | `/admin` selects the admin dashboard |
| App.DisastersPathRoute | src/App.tsx:51 | `/disasters` selects the user home page |
| App.RedirectsSettle | src/App.tsx:36-94 | from any path, a page renders after at most two redirects |
| App.SubmitNavigationRoute | src/components/disasters/DisasterForm.tsx:85 | the report form's navigation target selects the user portal's detail page of the new report |
| Seqs.Filter | src/pages/DisastersPage.tsx:30 | `filter` keeps exactly the elements that pass, and no more of them than there were |
| Seqs.FilterIsSubsequence | src/pages/DisastersPage.tsx:30 | `filter` keeps relative order |
| Seqs.FilterConjunction | src/pages/DisastersPage.tsx:45 | filtering by a conjunction equals filtering twice |
| Strings.Contains | src/pages/DisastersPage.tsx:34 | `includes` holds exactly when the term occurs at some position |
| Strings.Lower | src/pages/DisastersPage.tsx:34-36 | same length, each character lower-cased in its place, so no ASCII capital is left |
| Strings.LowerIdempotent | src/pages/DisastersPage.tsx:34-36 | lower-casing twice is lower-casing once |
| Strings.Split | src/pages/admin/AdminDisasterDetail.tsx:95 | `split` gives at least one piece |
| Strings.SplitOfFree | src/pages/admin/AdminDisasterDetail.tsx:95 | a text without the separator splits into itself alone |
| Strings.Join | src/utils/exportUtils.ts:38-41 | joining no pieces gives the empty text |
| Strings.JoinLength | src/utils/exportUtils.ts:38-41 | a join is as long as its pieces plus one separator between each two |
| Strings.JoinAppend | src/utils/exportUtils.ts:38-41 | joining two non-empty lists one after the other puts one separator between their joins |
| Strings.SplitCount | src/pages/admin/AdminDisasterDetail.tsx:95 | `split` gives one piece more than there are separators |
| Strings.JoinSplit | src/pages/admin/AdminDisasterDetail.tsx:95 | splitting the join of separator-free pieces gives back the pieces |
| Strings.SplitJoin | src/App.tsx:36-92 | joining the pieces of a split with the separator gives back the text |
| Strings.Trim | src/pages/admin/AdminDisasterDetail.tsx:95 | `trim` removes the leading and trailing whitespace runs and leaves no whitespace at either end |
| Strings.TrimOfTrimmed | src/pages/admin/AdminDisasterDetail.tsx:95 | a text without whitespace at either end is its own trim |
| Strings.TrimPadded | src/pages/admin/AdminDisasterDetail.tsx:95 | `trim` removes any whitespace written around a text without whitespace at its ends, and nothing else |

## Left out

- Rendering, styling, toasts and the `navigate` calls are not modelled. A navigation is a return
  value (`DisasterForm.HandleSubmit`), and a not-found branch is a `DetailView`.
- The CSV download (Blob, object URL, DOM link) and every jsPDF drawing call are foreign browser
  and library calls. Only the text and the row layout they receive are modelled. The float
  column x-positions (`170 / headers.length`) are floating point and are left out.
- ISO timestamps and `toLocaleString`/`toLocaleDateString` are not modelled. Times are abstract
  integers, and the two date formatters are function parameters (`formatTime`, `formatDate`).
- `Math.random` ids are the `genId` oracle, and `new Date()` is the monotone `clock` oracle. The
  context's ids and its `now` are plain parameters.
- DisasterContext.UpdateDisaster: the source reads the clock once for each matching report. The
  model stamps every match with one `now`. They differ only when several reports share the id.
- The context's initial state `[...mockDisasters]` is not modelled as a member. Reports are
  values, so the copy equals the seed list element for element.
- Strings.Lower: lower-cases ASCII letters only, because Unicode case mapping is not modelled.
  Lengths count characters, not UTF-16 code units. Whitespace for `trim` is an explicit list of
  the JavaScript whitespace and line-terminator characters.
- DisasterContext.Merge: `Partial<DisasterReport>` is modelled as one optional key per field.
  A key present with the value `undefined` is not modelled.
- Reports and responses are values, so sharing between objects is not modelled. In the source,
  the admin table's copy and the store hold the same objects, mutated in place. By value, the
  table sees a status update only through the report the store returns.
- The router's case-insensitive matching, trailing slashes and URL decoding are not modelled.
  `App.MatchRoute` splits at `/` and matches segments exactly.
- The login page and its `setCurrentUser` are outside this model: the current user is a
  parameter. So are the form's `onChange` handlers, which only store the typed text.
- The seeded responses carry parent ids `"1"` and `"4"`, and these never equal a generated
  report id. So no list-wide "a response belongs to its parent" invariant is stated. That fact is
  stated only for responses created by `addDisasterResponse` (`ReportStore.NewResponse`).
- The remaining pages are not modelled: the map, the profile pages, the layout chrome, the
  static pages and the read-only public detail page.

## Findings

| source | as written | input that shows it | evidently intended | confidence | as-written member | corrected member |
|---|---|---|---|---|---|---|
| src/utils/exportUtils.ts:26,34,36-37 | the id, the formatted report time, the reporter contact and the reporter email are written without quotes | a reporter contact `a,b` with email `c`, and a contact `a` with email `b,c`, give the same row. The en-US `toLocaleString` text also holds `, `, so the time cell always splits in two. The table's export (`DisasterTable.ExportCsv`) is modelled as written; `Export.CsvAsWrittenKeepsText` states which fields still read back | every free-text cell quoted and escaped like the title, so each row reads back as its twelve values | not executed | Export.CsvRowAmbiguous | Export.CsvQuotedRoundTrip |
