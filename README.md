# Clinical documentation panels, modelled in Dafny

This project models the state-handling core of a browser application for
clinical documentation. A record is read in a PDF viewer, and its data is
typed into one of several entry panels. The modelled parts are:

- **Labs panel** (`labs.dfy`, module `Labs`). A lab report form. The user picks a panel
  (lipid, basic metabolic, complete blood count). Clicking a parameter adds or removes
  its result row. The rows are always kept in the panel's own order. A
  "select all" button fills in every missing row, or clears the rows when every
  parameter is already selected. Cells are edited by row id. Reset and delete each
  ask for confirmation.
- **Diagnostics panel** (`diagnostics.dfy`, module `Diagnostics`). A radiology report form
  with a list of vitals rows, each keyed by a timestamp id. Removing the last
  remaining row clears its measurements instead of removing it.
- **PDF viewer** (`pdfviewer.dfy`, module `PdfViewer`). An eleven-page viewer with:
  - single, double and continuous page navigation;
  - a list of the five most recent pages; bookmarks;
  - zoom in 25 % steps between 25 and 400; rotation by quarter turns;
  - standard page sizes; a page search over the pages' sample text;
  - simulated OCR results, one per page; editable text boxes;
  - a page filter that sorts pages up or down.
- **Office-visit panel** (`ovpanel.dfy`, module `OfficeVisit`) and **data-entry panel**
  (`dataentry.dfy`, module `DataEntry`). Two forms of top fields, vitals, titled
  text blocks and a medication table. Their shared part is the medication table
  (`forms.dfy`, module `Forms`). Each form has page-number boxes; only the
  data-entry boxes have plus and minus buttons, while the office-visit boxes take
  typed input only.
- **Side menu** (`sidemenu.dfy`, module `SideMenu`). A fixed table of (date, page)
  entries. It is filtered by a search term and shows a count and a page total.
  A click selects an entry by its place in the full table.

Two modules are shared by the others:

- `common.dfy` (`Common`): the string operations the source relies on. These are
  JavaScript `includes`, ASCII lower-casing, decimal printing and `parseInt`, and
  `Number(x) || 0`.
- `sorting.dfy` (`Sorting`): a stable insertion sort specified by a key. It stands in
  for `Array.prototype.sort` with a comparator.

The React components become classes. Each `useState` variable becomes a field, and
each handler becomes a method. A method's `modifies` clause names the fields it sets,
and its `ensures` clauses give the new state, usually through a function on values.
The properties that matter are lemmas about those functions. User answers to
`window.confirm`, `Date.now()`, `Math.random()` and the numbers parsed from text
inputs are parameters of the methods.

## Model

| member | source | states |
|---|---|---|
| Common.ContainsIff | src/components/home/SideMenu.tsx:29-32 | `includes` (Contains) holds exactly when the term occurs at some position of the text |
| Common.ContainsInfix | src/components/home/PdfViewerPanel.tsx:295-300 | a text that has the term between two other texts contains it |
| Common.ContainsEmpty | src/components/home/SideMenu.tsx:29-32 | every text contains the empty term, so an empty search matches everything |
| Common.LowerChar | src/components/home/PdfViewerPanel.tsx:295-300 | an upper-case ASCII letter becomes its lower-case letter; any other character is unchanged |
| Common.ToLowerSpec | src/components/home/PdfViewerPanel.tsx:295-300 | lower-casing keeps the length, leaves no capital, is idempotent, and leaves a string unchanged exactly when it has no capital |
| Common.ToLowerConcat | src/components/home/PdfViewerPanel.tsx:295-300 | lower-casing distributes over concatenation |
| Common.NatToString | src/components/home/PdfViewerPanel.tsx:299 | a page number printed in a template string is a non-empty run of decimal digits, a single digit exactly below 10 |
| Common.DigitChar | src/components/home/PdfViewerPanel.tsx:299 | each digit prints as the character for that digit |
| Common.DecimalRoundTrip | src/components/home/SideMenu.tsx:64 | `parseInt` of a printed page number gives the number back |
| Sorting.InsertPermutation | src/components/Datapanel/LabsPanel.tsx:154-159 | one stable insertion adds exactly the new element: one longer, the multiset grows by it, no other member appears |
| Sorting.DeleteSorted | src/components/Datapanel/LabsPanel.tsx:144 | deleting one element keeps a list sorted by the key |
| Sorting.InsertAtEnd | src/components/Datapanel/LabsPanel.tsx:154-159 | an element whose key is at least every other key is inserted at the end |
| Sorting.InsertSorted | src/components/Datapanel/LabsPanel.tsx:154-159 | inserting into a list sorted by the key keeps it sorted |
| Sorting.SortBySpec | src/components/Datapanel/LabsPanel.tsx:189-191 | the comparator sort returns a permutation of its input that is sorted by the key |
| Sorting.SortMembers | src/components/Datapanel/LabsPanel.tsx:189-191 | sorting keeps exactly the same members |
| Sorting.SortAppend | src/components/Datapanel/LabsPanel.tsx:174-191 | sorting a list with rows pushed at its end equals inserting the pushed rows one by one into the sorted list |
| Sorting.SortOfSorted | src/components/Datapanel/LabsPanel.tsx:189-191 | sorting a list already sorted by the key returns it unchanged (stability) |
| Sorting.StrictlySortedUnique | src/components/Datapanel/LabsPanel.tsx:189-191 | two lists strictly sorted by the key with the same elements are equal |
| Labs.PanelParametersShape | src/components/Datapanel/LabsPanel.tsx:33-58 | every panel lists each parameter once; only the three known panels have parameters (`PANELS_DATA[name] \|\| []`) |
| Labs.IndexOfFound | src/components/Datapanel/LabsPanel.tsx:155-159 | `indexOf` is -1 exactly for an absent parameter and otherwise a position holding it |
| Labs.IndexOfFirst | src/components/Datapanel/LabsPanel.tsx:155-159 | the position `indexOf` returns is the first one holding the parameter |
| Labs.IndexOfDistinct | src/components/Datapanel/LabsPanel.tsx:155-159 | in a list without repeats, the entry at position i is found at i |
| Labs.CanonicalIsStrict | src/components/Datapanel/LabsPanel.tsx:140-162 | rows made of panel parameters, one per parameter and sorted, have strictly increasing panel positions |
| Labs.InsertWellFormed | src/components/Datapanel/LabsPanel.tsx:146-159 | adding the row of a parameter that has none keeps the rows sorted by panel position, one per parameter, with id equal to parameter |
| Labs.InsertAllWellFormed | src/components/Datapanel/LabsPanel.tsx:174-192 | inserting rows for distinct new parameters keeps the list well formed and holds exactly the rows of both lists |
| Labs.RemoveParamMembers | src/components/Datapanel/LabsPanel.tsx:142-145 | `filter(r => r.parameter !== p)` keeps exactly the rows of the other parameters |
| Labs.RemoveParamAt | src/components/Datapanel/LabsPanel.tsx:142-145 | with one row per parameter, the filter deletes exactly the row at that parameter's position |
| Labs.RemoveParamAbsent | src/components/Datapanel/LabsPanel.tsx:142-145 | filtering out a parameter that has no row changes nothing |
| Labs.ToggleSelection | src/components/Datapanel/LabsPanel.tsx:140-162 | a click flips the selection of the clicked parameter and of no other; a removal keeps every other row; an addition adds exactly a blank row and leaves the list sorted by panel position |
| Labs.ToggleAddIsInsert | src/components/Datapanel/LabsPanel.tsx:146-159 | on well-formed rows, adding then re-sorting equals one stable insertion of the blank row |
| Labs.ToggleRemoveIsDelete | src/components/Datapanel/LabsPanel.tsx:142-145 | on well-formed rows, clicking a selected parameter deletes its row and keeps the others with their values and order |
| Labs.DeleteWellFormed | src/components/Datapanel/LabsPanel.tsx:142-145 | deleting one row keeps the rows well formed |
| Labs.TogglePreservesWellFormed | src/components/Datapanel/LabsPanel.tsx:140-162 | every click keeps the rows sorted by panel position, one per parameter |
| Labs.TogglePreservesCanonical | src/components/Datapanel/LabsPanel.tsx:140-162 | clicking a parameter of the panel keeps the rows exactly the panel list restricted to the selected parameters |
| Labs.ToggleOrderExample | src/components/Datapanel/LabsPanel.tsx:153-158 | clicking LDL and then Total Cholesterol lists Total Cholesterol first: panel order, not click order |
| Labs.MissingSpec | src/components/Datapanel/LabsPanel.tsx:174-188 | the rows pushed are blanks, each for a panel parameter that had no row, and every such parameter gets one |
| Labs.MissingDistinct | src/components/Datapanel/LabsPanel.tsx:174-188 | the pushed rows are for distinct parameters, with id equal to parameter |
| Labs.SelectAllSelects | src/components/Datapanel/LabsPanel.tsx:164-194 | select-all clears a fully selected list; otherwise afterwards every parameter is selected, every existing row is kept and the only new rows are blanks for parameters that had none |
| Labs.RowFor | src/components/Datapanel/LabsPanel.tsx:174-188 | the row found for a parameter belongs to the rows and is that parameter's |
| Labs.FullSelection | src/components/Datapanel/LabsPanel.tsx:164-194 | one row per panel parameter in panel order: the existing row where there is one, a blank otherwise |
| Labs.SelectAllPreservesWellFormed | src/components/Datapanel/LabsPanel.tsx:164-194 | select-all keeps the rows well formed |
| Labs.FullSelectionStrict | src/components/Datapanel/LabsPanel.tsx:164-194 | the full selection's panel positions strictly increase |
| Labs.RowForUnique | src/components/Datapanel/LabsPanel.tsx:174-188 | with one row per parameter, the row found for a row's parameter is that row |
| Labs.SelectAllCanonical | src/components/Datapanel/LabsPanel.tsx:164-194 | select-all on canonical rows yields canonical rows |
| Labs.SelectAllWithinFull | src/components/Datapanel/LabsPanel.tsx:164-194 | on canonical rows with some parameter unselected, every row select-all leaves is in the full selection |
| Labs.FullWithinSelectAll | src/components/Datapanel/LabsPanel.tsx:164-194 | with some parameter unselected, every row of the full selection is among the rows select-all leaves |
| Labs.SelectAllSameRows | src/components/Datapanel/LabsPanel.tsx:164-194 | when some parameter is unselected, select-all on canonical rows holds the same rows as the full selection |
| Labs.SelectAllIsFullSelection | src/components/Datapanel/LabsPanel.tsx:164-194 | when some parameter is unselected, select-all on canonical rows gives exactly one row per parameter in panel order, keeping entered values |
| Labs.SelectAllOnEmptyPanel | src/components/Datapanel/LabsPanel.tsx:164-168 | with no parameters (an unknown panel) select-all's own check passes and it clears, while the button's flag says not all selected |
| Labs.IncreasingBounds | src/components/Datapanel/LabsPanel.tsx:240-241 | strictly increasing positions below n are at most n, and the i-th lies between i and n - count + i |
| Labs.CanonicalPositions | src/components/Datapanel/LabsPanel.tsx:240-241 | canonical rows are at most as many as the parameters, with strictly increasing and bounded positions |
| Labs.FullIsAllSelected | src/components/Datapanel/LabsPanel.tsx:240-241 | canonical rows as many as the parameters select every parameter |
| Labs.AllSelectedIsFull | src/components/Datapanel/LabsPanel.tsx:240-241 | canonical rows that select every parameter are as many as the parameters |
| Labs.AllSelectedIffFull | src/components/Datapanel/LabsPanel.tsx:240-241 | on canonical rows the "all selected" flag holds exactly when the panel is non-empty and has as many rows as parameters |
| Labs.UpdateRows | src/components/Datapanel/LabsPanel.tsx:196-204 | the edited field of the rows with that id becomes the new text; every other field and every other row is unchanged |
| Labs.UpdateUnknownId | src/components/Datapanel/LabsPanel.tsx:196-204 | an id no row has leaves the rows unchanged |
| Labs.UpdatePreservesCanonical | src/components/Datapanel/LabsPanel.tsx:196-204 | editing a cell never changes which parameters are selected or their order |
| Labs.PushMissing | src/components/Datapanel/LabsPanel.tsx:174-188 | the loop returns the rows followed by the blanks of the missing parameters in panel order |
| Labs.LabsPanel.constructor | src/components/Datapanel/LabsPanel.tsx:98-122 | status pending, blank fields, the lipid panel and no rows |
| Labs.LabsPanel.ChangePanel | src/components/Datapanel/LabsPanel.tsx:129-133 | choosing a panel sets its parameter list (empty for an unknown name) and discards every row |
| Labs.LabsPanel.ParameterToggle | src/components/Datapanel/LabsPanel.tsx:140-162 | for a panel parameter or a selected one, the rows become the toggled rows and stay well formed and in panel order |
| Labs.LabsPanel.SelectAll | src/components/Datapanel/LabsPanel.tsx:164-194 | the rows become the select-all rows, computed by the push loop and the sort; unless all were selected, that is one row per parameter in panel order, keeping the existing rows |
| Labs.LabsPanel.UpdateResultRow | src/components/Datapanel/LabsPanel.tsx:196-204 | the rows become the edited rows and stay well formed |
| Labs.LabsPanel.Reset | src/components/Datapanel/LabsPanel.tsx:206-220 | a confirmed reset clears every field and sets status pending while the panel stays; a declined one changes nothing |
| Labs.LabsPanel.ClearForm | src/components/Datapanel/LabsPanel.tsx:207-218 | every field of the form cleared |
| Labs.LabsPanel.ClearPatient | src/components/Datapanel/LabsPanel.tsx:208-211 | the four patient fields are blank |
| Labs.LabsPanel.ClearProvider | src/components/Datapanel/LabsPanel.tsx:212-215 | the four provider fields are blank |
| Labs.LabsPanel.Delete | src/components/Datapanel/LabsPanel.tsx:222-226 | only when both the delete question and the reset's own question are confirmed is the form cleared |
| Labs.LabsPanel.Report | src/components/Datapanel/LabsPanel.tsx:228-237 | the saved record carries the current rows, status and comments |
| Diagnostics.BlankRow | src/components/Datapanel/DiagnosticsPanel.tsx:121-138 | a new vitals row has the given id, no measurements, units CM and KG, page numbers 0 |
| Diagnostics.AddRowSpec | src/components/Datapanel/DiagnosticsPanel.tsx:121-138 | adding appends exactly one blank row with id `now`, keeps the others, and keeps ids distinct when `now` is fresh |
| Diagnostics.ClearMeasurements | src/components/Datapanel/DiagnosticsPanel.tsx:144-153 | the kept row loses its measurements but keeps its id, units and page numbers |
| Diagnostics.WithoutIdSpec | src/components/Datapanel/DiagnosticsPanel.tsx:142 | the id filter keeps exactly the rows with other ids, and an unknown id changes nothing |
| Diagnostics.WithoutIdAt | src/components/Datapanel/DiagnosticsPanel.tsx:142 | with distinct ids, the filter deletes exactly the row at that id's position |
| Diagnostics.RemoveRowSpec | src/components/Datapanel/DiagnosticsPanel.tsx:140-155 | with several rows, removing deletes that id's row only (an unknown id changes nothing); with one row, its measurements are cleared instead; the list stays non-empty with distinct ids |
| Diagnostics.DeleteIds | src/components/Datapanel/DiagnosticsPanel.tsx:142 | deleting one row of a table with distinct ids leaves exactly the other ids |
| Diagnostics.DeleteDistinct | src/components/Datapanel/DiagnosticsPanel.tsx:142 | deleting one row keeps the ids distinct |
| Diagnostics.SameMillisecondRowsVanishTogether | src/components/Datapanel/DiagnosticsPanel.tsx:121-155 | two rows created in the same millisecond share an id, and removing one removes both, leaving no row at all |
| Diagnostics.UpdateVitalsSpec | src/components/Datapanel/DiagnosticsPanel.tsx:157-165 | the rows with that id get the new text in that cell; every other cell and row is unchanged and ids stay distinct |
| Diagnostics.UpdateVitalsIdempotent | src/components/Datapanel/DiagnosticsPanel.tsx:157-165 | repeating the same edit changes nothing more |
| Diagnostics.DiagnosticReport.constructor | src/components/Datapanel/DiagnosticsPanel.tsx:75-118 | blank fields, status pending and the one initial vitals row |
| Diagnostics.DiagnosticReport.AddVitalsRow | src/components/Datapanel/DiagnosticsPanel.tsx:121-138 | appends a blank row with the fresh id |
| Diagnostics.DiagnosticReport.RemoveVitalsRow | src/components/Datapanel/DiagnosticsPanel.tsx:140-155 | the rows become the removal result and stay non-empty with distinct ids |
| Diagnostics.DiagnosticReport.UpdateVitalsCell | src/components/Datapanel/DiagnosticsPanel.tsx:157-165 | the rows become the edited rows |
| Diagnostics.DiagnosticReport.Reset | src/components/Datapanel/DiagnosticsPanel.tsx:167-202 | a confirmed reset clears every field and restores the initial row; a declined one changes nothing |
| Diagnostics.DiagnosticReport.ClearPatient | src/components/Datapanel/DiagnosticsPanel.tsx:170-173 | the four patient fields are blank |
| Diagnostics.DiagnosticReport.ClearProvider | src/components/Datapanel/DiagnosticsPanel.tsx:174-177 | provider, facility and date blank, and the header page number is the empty text |
| Diagnostics.DiagnosticReport.ClearReportText | src/components/Datapanel/DiagnosticsPanel.tsx:178-181 | the report, procedure, indication and comparison texts are blank |
| Diagnostics.DiagnosticReport.ClearReportConclusions | src/components/Datapanel/DiagnosticsPanel.tsx:182-185 | findings, impression, recommendation and special comments are blank |
| Diagnostics.DiagnosticReport.Delete | src/components/Datapanel/DiagnosticsPanel.tsx:204-208 | only two confirmations clear the report |
| Diagnostics.DiagnosticReport.Saved | src/components/Datapanel/DiagnosticsPanel.tsx:210-222 | the logged record carries the current rows, status and findings |
| PdfViewer.StandardSizesShape | src/components/home/PdfViewerPanel.tsx:60-68 | every standard size is portrait, and each A-size's height is the next larger A-size's width |
| PdfViewer.NavigationInRange | src/components/home/PdfViewerPanel.tsx:231-247 | previous and next page stay between 1 and the page count |
| PdfViewer.NavigationSteps | src/components/home/PdfViewerPanel.tsx:231-247 | the buttons step by 2 in double mode and 1 otherwise, stopping at the ends; next from the last page in double mode goes back one |
| PdfViewer.PrevUndoesNext | src/components/home/PdfViewerPanel.tsx:231-247 | away from the end, previous undoes next |
| PdfViewer.ZoomIn | src/components/home/PdfViewerPanel.tsx:257 | zooming in adds 25 up to the 400 cap |
| PdfViewer.ZoomOut | src/components/home/PdfViewerPanel.tsx:258 | zooming out takes 25 down to the 25 floor |
| PdfViewer.ZoomRoundTrip | src/components/home/PdfViewerPanel.tsx:257-258 | away from the bounds, zooming out undoes zooming in and the reverse |
| PdfViewer.Rotate | src/components/home/PdfViewerPanel.tsx:261-267 | rotation keeps the angle a multiple of 90 |
| PdfViewer.RotationCycles | src/components/home/PdfViewerPanel.tsx:261-267 | a turn the other way undoes a turn, and four turns give the same orientation |
| PdfViewer.FullTurn | src/components/home/PdfViewerPanel.tsx:261-267 | an angle a full turn larger shows the same orientation |
| PdfViewer.WithoutSpec | src/components/home/PdfViewerPanel.tsx:270-285 | the page filter keeps exactly the other pages and keeps them distinct |
| PdfViewer.WithoutAppend | src/components/home/PdfViewerPanel.tsx:270-275 | filtering a concatenation filters each part |
| PdfViewer.RecentSpec | src/components/home/PdfViewerPanel.tsx:270-275 | the recent list starts with the page and is then the earlier list without the page, in order, cut so that the whole holds min(5, that list's length + 1) distinct pages |
| PdfViewer.RecentIdempotent | src/components/home/PdfViewerPanel.tsx:270-275 | recording the same page twice equals recording it once |
| PdfViewer.MatchingPagesSpec | src/components/home/PdfViewerPanel.tsx:288-310 | the search results are increasing and are exactly the pages whose lower-cased content contains the lower-cased term |
| PdfViewer.AllPagesMatch | src/components/home/PdfViewerPanel.tsx:288-310 | when every page matches, the results are all pages in order |
| PdfViewer.ToLowerDecimal | src/components/home/PdfViewerPanel.tsx:295-300 | lower-casing leaves a decimal numeral unchanged |
| PdfViewer.SearchFindsPageNumber | src/components/home/PdfViewerPanel.tsx:288-310 | searching for a page's number finds that page |
| PdfViewer.SearchSharedWord | src/components/home/PdfViewerPanel.tsx:288-310 | every page's content has "sample", so searching "SAMPLE" finds every page |
| PdfViewer.ContentHasSample | src/components/home/PdfViewerPanel.tsx:299 | each page's lower-cased content contains "sample" |
| PdfViewer.WithoutPageSpec | src/components/home/PdfViewerPanel.tsx:356-360 | dropping a page's OCR results keeps exactly the other pages' results and at most one per page |
| PdfViewer.MergeOcrSpec | src/components/home/PdfViewerPanel.tsx:356-360 | merging a result replaces that page's earlier result, puts the new one last, leaves the other pages alone and keeps one result per page |
| PdfViewer.ApplyPatchSpec | src/components/home/PdfViewerPanel.tsx:390-394 | the spread sets each of the ten properties the patch names to the patch's value and keeps each other property |
| PdfViewer.ApplyEmptyPatch | src/components/home/PdfViewerPanel.tsx:390-394 | a patch that names no property leaves the text as it is |
| PdfViewer.UpdateTextsSpec | src/components/home/PdfViewerPanel.tsx:390-394 | each text with the id becomes the patched text and every other text is kept; an empty patch and a repeated patch change nothing more |
| PdfViewer.FindText | src/components/home/PdfViewerPanel.tsx:402-403 | `find`: the found text has the id and sits at a position with no earlier text of that id; none is found only when no text has the id |
| PdfViewer.DragPatch | src/components/home/PdfViewerPanel.tsx:405-412 | a drag sets only the two coordinates: each is the starting one plus the movement, or exactly 0 where that sum is negative |
| PdfViewer.LastMoveWins | src/components/home/PdfViewerPanel.tsx:405-412 | each move places the box from its position at the start of the drag, so a later move overrides an earlier one |
| PdfViewer.SortDescendingRange | src/components/home/PdfViewerPanel.tsx:519-527 | sorting pages 1..n high to low gives n down to 1 |
| PdfViewer.FilteredPagesOrder | src/components/home/PdfViewerPanel.tsx:519-527 | the page list is 1..n except for the high-to-low filter, which gives n..1 |
| PdfViewer.Viewer.constructor | src/components/home/PdfViewerPanel.tsx:72-122 | page 1, zoom 100, no rotation or selection, A4 with custom size 595 by 842, empty lists |
| PdfViewer.Viewer.PageSizeChange | src/components/home/PdfViewerPanel.tsx:135-150 | a standard size sets its dimensions and copies them into the custom size; choosing Custom keeps the custom dimensions |
| PdfViewer.Viewer.RecordRecent | src/components/home/PdfViewerPanel.tsx:270-275 | the recent list is updated with the page |
| PdfViewer.Viewer.PrevPage | src/components/home/PdfViewerPanel.tsx:231-238 | moves to the previous page and records the page left in the recent list |
| PdfViewer.Viewer.NextPage | src/components/home/PdfViewerPanel.tsx:240-247 | moves to the next page and records the page left in the recent list |
| PdfViewer.Viewer.PageChange | src/components/home/PdfViewerPanel.tsx:249-255 | a typed page inside the document is shown; anything else changes nothing |
| PdfViewer.Viewer.ManualPageSearch | src/components/home/PdfViewerPanel.tsx:329-336 | a page inside the document is shown and selected; anything else changes nothing |
| PdfViewer.Viewer.HandleZoomIn | src/components/home/PdfViewerPanel.tsx:257 | the zoom becomes the zoomed-in level and stays in range |
| PdfViewer.Viewer.HandleZoomOut | src/components/home/PdfViewerPanel.tsx:258 | the zoom becomes the zoomed-out level and stays in range |
| PdfViewer.Viewer.ResetZoom | src/components/home/PdfViewerPanel.tsx:503-505 | ctrl+0 sets the zoom to 100 |
| PdfViewer.Viewer.HandleRotate | src/components/home/PdfViewerPanel.tsx:261-267 | the angle turns by a quarter in the given direction |
| PdfViewer.Viewer.ToggleBookmark | src/components/home/PdfViewerPanel.tsx:278-285 | the bookmark flag flips; the current page is added to or removed from the starred pages, and no other page changes |
| PdfViewer.Viewer.PageSearch | src/components/home/PdfViewerPanel.tsx:288-310 | the results are the matching pages; the first one, if any, is shown and selected |
| PdfViewer.Viewer.ClearSearch | src/components/home/PdfViewerPanel.tsx:312-315 | input and results are cleared |
| PdfViewer.Viewer.GoToSearchResult | src/components/home/PdfViewerPanel.tsx:317-326 | the chosen result page is shown and selected |
| PdfViewer.Viewer.SelectThumbnail | src/components/home/PdfViewerPanel.tsx:1076-1084 | a click on a listed thumbnail shows and selects that page, which is a page of the document |
| PdfViewer.Viewer.ShowRecentPage | src/components/home/PdfViewerPanel.tsx:1023-1024 | a click on a recent page shows it and changes neither the selection nor the recent list |
| PdfViewer.Viewer.PerformOcr | src/components/home/PdfViewerPanel.tsx:339-366 | the current page's result, with a confidence between 80 and 99, replaces its earlier one and the OCR panel shows its text |
| PdfViewer.Viewer.ApplyOcrResult | src/components/home/PdfViewerPanel.tsx:356-360 | the results become the merge of the new result |
| PdfViewer.Viewer.FileUpload | src/components/home/PdfViewerPanel.tsx:368-383 | choosing a file shows the OCR panel with that file's text; no file changes nothing |
| PdfViewer.Viewer.UpdateEditableText | src/components/home/PdfViewerPanel.tsx:390-394 | the texts become the patched texts |
| PdfViewer.Viewer.BeginDrag | src/components/home/PdfViewerPanel.tsx:396-403 | outside edit mode or for an unknown id no drag starts and nothing changes; otherwise the drag records the id, the pointer and the first text with the id |
| PdfViewer.Viewer.MoveDrag | src/components/home/PdfViewerPanel.tsx:405-412 | the texts with the dragged id go to the recorded start position plus the pointer's offset from where it went down, clamped at 0, whatever earlier moves did; without a drag nothing changes |
| PdfViewer.Viewer.EndDrag | src/components/home/PdfViewerPanel.tsx:414-417 | after mouse-up no drag is in progress |
| PdfViewer.Viewer.Reset | src/components/home/PdfViewerPanel.tsx:471-482 | a confirmed reset restores zoom, rotation, page size, page 1 and empty lists; a declined one changes nothing |
| Forms.RemoveAtSpec | src/components/Datapanel/OVPanel.tsx:201-205 | filtering by index drops exactly the row at an index inside the list and drops nothing otherwise |
| Forms.UpdateMedicationSpec | src/components/Datapanel/OVPanel.tsx:207-211 | an edit changes exactly one cell of one row |
| Forms.UpdateMedicationUndo | src/components/Datapanel/OVPanel.tsx:207-211 | editing a cell back to its old text restores the table |
| DataEntry.PageButtons | src/components/home/DataEntryPanel.tsx:16-39 | plus and minus keep a page number at 0 or above, and each undoes the other where it can |
| OfficeVisit.UpdateVitalsAtSpec | src/components/Datapanel/OVPanel.tsx:352-356 | an edit changes exactly one cell of one extra vitals row |
| OfficeVisit.NotesSpec | src/components/Datapanel/OVPanel.tsx:266-289 | the saved notes are the eight blocks plus plan, work status and special comments, with those values |
| OfficeVisit.VisitForm.constructor | src/components/Datapanel/OVPanel.tsx:135-195 | every field at its initial value, all page numbers 0 and no extra vitals rows |
| OfficeVisit.VisitForm.SetBlockPage | src/components/Datapanel/OVPanel.tsx:190-192 | sets one block's page number |
| OfficeVisit.VisitForm.SetBlockText | src/components/Datapanel/OVPanel.tsx:769 | sets one block's text |
| OfficeVisit.VisitForm.TypePage | src/components/Datapanel/OVPanel.tsx:57-70 | the typed page box gets `Number(v) \|\| 0` and the others are unchanged |
| OfficeVisit.VisitForm.AddRow | src/components/Datapanel/OVPanel.tsx:197-199 | appends a blank medication row |
| OfficeVisit.VisitForm.RemoveRow | src/components/Datapanel/OVPanel.tsx:201-205 | after confirmation, deletes the row at an index inside the table; otherwise nothing changes |
| OfficeVisit.VisitForm.UpdateRow | src/components/Datapanel/OVPanel.tsx:207-211 | the rows become the edited rows |
| OfficeVisit.VisitForm.AddVitalsRow | src/components/Datapanel/OVPanel.tsx:337-350 | appends a blank vitals row |
| OfficeVisit.VisitForm.UpdateVitalsRow | src/components/Datapanel/OVPanel.tsx:352-356 | the extra vitals become the edited rows |
| OfficeVisit.VisitForm.RemoveVitalsRow | src/components/Datapanel/OVPanel.tsx:358-362 | after confirmation, deletes the row at an index inside the list; otherwise nothing changes |
| OfficeVisit.VisitForm.DeleteAll | src/components/Datapanel/OVPanel.tsx:214-238 | a confirmed delete clears every field it names; a declined one changes nothing |
| OfficeVisit.VisitForm.ResetAll | src/components/Datapanel/OVPanel.tsx:240-264 | the same as delete, behind its own question |
| OfficeVisit.VisitForm.ClearAll | src/components/Datapanel/OVPanel.tsx:216-236 | every field delete names is at its initial value |
| OfficeVisit.VisitForm.ClearTop | src/components/Datapanel/OVPanel.tsx:216-236 | note type and facility back to "select", dates and provider blank |
| OfficeVisit.VisitForm.ClearBody | src/components/Datapanel/OVPanel.tsx:216-236 | height and weight blank, units back to CM and KG |
| OfficeVisit.VisitForm.ClearReadings | src/components/Datapanel/OVPanel.tsx:216-236 | BMI, blood pressure and pulse blank |
| OfficeVisit.VisitForm.ClearNotes | src/components/Datapanel/OVPanel.tsx:216-236 | blocks blank, block page numbers 0, the three extra text fields blank |
| OfficeVisit.VisitForm.HandleBlockDelete | src/components/Datapanel/OVPanel.tsx:295-316 | after confirmation, the plan, work-status and special-comments titles clear their own field, and any other title clears that block's text and page number; otherwise nothing changes |
| OfficeVisit.VisitForm.Saved | src/components/Datapanel/OVPanel.tsx:266-289 | the logged record carries the rows, status and the merged notes |
| DataEntry.PageAfter | src/components/home/DataEntryPanel.tsx:16-39 | typing gives `Number(v) \|\| 0`; the buttons keep a non-negative page non-negative |
| DataEntry.EntryForm.constructor | src/components/home/DataEntryPanel.tsx:82-127 | every field at its initial value and every block present |
| DataEntry.EntryForm.PageBox | src/components/home/DataEntryPanel.tsx:16-39 | the pressed or typed box changes as the page box says and the other box is unchanged |
| DataEntry.EntryForm.SetBlockText | src/components/home/DataEntryPanel.tsx:321 | sets one block's text |
| DataEntry.EntryForm.AddRow | src/components/home/DataEntryPanel.tsx:129-131 | appends a blank medication row |
| DataEntry.EntryForm.RemoveRow | src/components/home/DataEntryPanel.tsx:133-135 | deletes the row at an index inside the table, without asking; otherwise nothing changes |
| DataEntry.EntryForm.UpdateRow | src/components/home/DataEntryPanel.tsx:137-147 | the rows become the edited rows |
| DataEntry.EntryForm.DeleteAll | src/components/home/DataEntryPanel.tsx:150-162 | a confirmed delete clears every field; a declined one changes nothing |
| DataEntry.EntryForm.ClearTop | src/components/home/DataEntryPanel.tsx:150-162 | note type and facility back to "select", dates and provider blank |
| DataEntry.EntryForm.ClearVitals | src/components/home/DataEntryPanel.tsx:150-162 | the six vitals are blank |
| DataEntry.EntryForm.ResetAll | src/components/home/DataEntryPanel.tsx:164-170 | declining the first question changes nothing; confirming both clears everything; confirming only the first zeroes the two page numbers and nothing else |
| DataEntry.EntryForm.HandleBlockDelete | src/components/home/DataEntryPanel.tsx:186-190 | after confirmation one block is emptied; otherwise nothing changes |
| DataEntry.EntryForm.Saved | src/components/home/DataEntryPanel.tsx:172-181 | the logged record carries the blocks, rows and both page numbers |
| SideMenu.FilterInOrder | src/components/home/SideMenu.tsx:29-32 | the filter keeps exactly the matching entries in table order: its i-th entry is the table entry at the i-th matching position, and the positions increase |
| SideMenu.EmptyTermKeepsAll | src/components/home/SideMenu.tsx:29-32 | an empty search shows the whole table |
| SideMenu.FilterPageSum | src/components/home/SideMenu.tsx:63-64 | filtering keeps page numbers parsable and never raises the page total |
| SideMenu.MenuPageTotal | src/components/home/SideMenu.tsx:17-26 | the table's page numbers add up to 36 |
| SideMenu.FullMenuCounts | src/components/home/SideMenu.tsx:63-64 | with no search term the menu shows eight entries and 36 pages |
| SideMenu.OriginalIndexOf | src/components/home/SideMenu.tsx:83-85 | in a table without repeated entries, `findIndex` of an entry returns its position |
| SideMenu.MenuItemsDistinct | src/components/home/SideMenu.tsx:17-26 | no two table entries are equal |
| SideMenu.ClickSelectsOriginal | src/components/home/SideMenu.tsx:82-147 | clicking the i-th listed entry selects the table position the filter took it from, and the footer shows that entry's page number |

## Left out

- Rendering (JSX, CSS classes, icons, layout effects such as the auto-resizing text areas, window size, fullscreen, dark mode, sidebars, dropdowns and menus) is not modelled. It holds no state the handlers read.
- `alert` and `console.log`: the save handlers are modelled as functions returning the record they log (`Report`, `Saved`). The upload and sort buttons only log, and are left out.
- Saving to and loading from `localStorage` in the PDF viewer, printing and sharing are left out because they are I/O.
- Timers: the simulated OCR delay, the search delay and the file reader. Each is modelled by its final synchronous state update. The transient `isSearching` and `isOCRProcessing` flags are not modelled.
- `Date.now()` is the parameter `now` of `AddVitalsRow`. The method asks that it is not already an id, because two clicks in one millisecond would give equal ids. `SameMillisecondRowsVanishTogether` shows what happens to rows that share an id.
- `Math.random()` in the OCR handler is the parameter `draw` in [0, 20), from which the confidence 80 + draw is computed.
- PdfViewer.Render: the OCR text is held as structured data (`OcrText`), and its rendering into the source's literal strings is not proved anything about.
- PdfViewer handleCustomSizeChange, with its aspect-ratio arithmetic on floating point, is left out. Only choosing a size is modelled.
- In the PDF viewer's keyboard handler only ctrl+0 (`ResetZoom`) is modelled separately. The arrow keys and ctrl+plus/minus call the modelled handlers. Toggling edit mode and the OCR panel only flip flags.
- The PDF viewer's copy-to-clipboard writes the OCR text to the clipboard and alerts; it is I/O and is left out. The panel's markup has no control that adds an editable text box or edits its font or colour; boxes come only from the saved state, which is left out with `localStorage`.
- PdfViewer.Viewer.PageChange: the typed text is taken as already parsed by `parseInt`, with `None` for NaN.
- Common.ToLower covers ASCII letters only, in the page contents and in the search term. JavaScript's `toLowerCase` also folds non-ASCII characters, some into ASCII: U+212A (Kelvin sign) becomes `k`, and U+0130 becomes `i` followed by U+0307. The model's search agrees with the source's only because the page contents hold neither `k` nor U+0307 nor any non-ASCII character, so a term with such a character matches no page either way.
- Common.NumberOrZero: fractional and exponent inputs to `Number()` are outside the model; a typed page is an integer or unparsable.
- Forms.UpdateMedication: the source copies the row array but mutates the row object in place (`copy[i][k] = v`), which shares the row with the previous state. The model replaces the row by value, so that aliasing is not captured.
- OfficeVisit.VisitForm.UpdateRow, DataEntry.EntryForm.UpdateRow: an index outside the table makes the source throw on `copy[i]`; the methods require the index to be inside the table.
- OfficeVisit.VisitForm.UpdateVitalsRow: requires the index to be inside the list and a value of the cell's kind (text or number), which the inputs always provide.
- OfficeVisit.VisitForm.DeleteAll and ResetAll do not clear the extra vitals rows, `pageTop`, `pageVitals1` or `pageVitals2`, because the source does not. The unused `pageVitals` state is left out.
- Labs.LabsPanel.UpdateResultRow: the field is one of the four edited columns (`LabField`). The source's `keyof LabResultRow` also allows `id` and `parameter`, but the inputs pass only the four; edits of `id` and `parameter` are not modelled.
- Labs.LabsPanel.ParameterToggle requires a parameter of the panel or one that has a row, as both callers pass (the checkbox list and a row's remove button); a toggle of any other name is not modelled.
- PdfViewer.Viewer.GoToSearchResult: the panel never calls `goToSearchResult`. The model takes it to be called with one of the search hits.
- PdfViewer.Viewer.PageSearch, PdfViewer.Viewer.ClearSearch: the panel never calls `handlePageSearch` or `clearSearch`, and no input sets `pageSearchInput`. The model gives both handlers as written, for an input set by some caller.
- OfficeVisit.VisitForm.HandleBlockDelete, OfficeVisit.VisitForm.SetBlockPage: the office-visit panel never calls `handleBlockDelete` or `setBlockPage`; its text blocks get no delete handler. The model gives both as written.
- PdfViewer.Viewer.BeginDrag: the panel's markup does not attach `handleTextDrag` to any element, so the drag is modelled as the handler would run. A second mouse-down before mouse-up leaves two sets of listeners in the source; the model keeps only the latest drag.
- Diagnostics.UpdateVitals edits only the ten cells the inputs edit; an edit of the `id` field is not modelled.
- Diagnostics.RemoveRow is asked of a non-empty list, which the panel always holds (`ValidRows`).
- Labs: `PANELS_DATA[name]` on a name such as `toString` would find a prototype property in JavaScript. The model treats every name outside the three panels as unknown. The status, patient and provider setters are single-field assignments and are not modelled separately.
- SideMenu: the `onItemSelect` callback belongs to the parent component and is left out. Only the selected index and the footer are modelled.
