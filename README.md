# Grocy Android: stock list, deep links and scanner, in Dafny

This project models three pieces of logic from the Grocy Android app and proves
properties about them.

- **Stock overview list** (`StockEntryAdapter`).
  - How a list of stock items becomes the rows of the stock overview. With no
    grouping the rows are the sorted items. Otherwise items are bucketed by
    group name into an "ungrouped" section and one section per sorted group
    name, each led by a header with a divider flag.
  - What a row shows: the shopping-list marker, the missing highlight, and the
    due-date line with its emphasis and colour.
  - How `DiffCallback` decides that two rows are the same item, or have the
    same contents.
  - How `updateData` replaces the adapter's state.
- **Deep-link argument substitution** (`BaseFragment.getUriWithArgs`), with
  Java's `String.split` semantics. Also the error-message classifier
  `getErrorMessage`.
- **ML Kit scanner** (`EmbeddedFragmentScannerMLKit`).
  - Which barcode formats are enabled, and how they become the scanner
    options, including `convertIntegers`.
  - When a scan is accepted.
  - The state machine that opens and closes the scanner as it is shown and
    hidden.

Modules:

- `Wrappers`: Option and Result.
- `JavaText`: `String.split` on one character, `Integer.parseInt` and
  `String.valueOf(int)`.
- `Sorting`: the comparator sort standing in for `SortUtil`.
- `Grouping`: the grouping algorithm, generic in the item type.
- `StockGrouping`, `StockView`, `StockDiff` and `StockAdapter`: the adapter.
- `BaseFragment`.
- `Scanner`.

Modelling conventions:

- Java `null` is `None`.
- Exceptions the code can throw are `Err` values.
- `SortUtil`, `DateUtil`, `NumUtil`, the Android context strings and
  `URLEncoder.encode` are function-valued parameters.

## Model

| member | source | states |
|---|---|---|
| JavaText.SplitAllJoin | app/src/main/java/xyz/zedler/patrick/grocy/fragment/BaseFragment.java:366-376 | joining the segments of a string split at c with c gives the string back, and no segment holds c |
| JavaText.JoinSplitAll | app/src/main/java/xyz/zedler/patrick/grocy/fragment/BaseFragment.java:366-376 | splitting a join of c-free segments at c gives the segments back |
| JavaText.SplitEmptyIff | app/src/main/java/xyz/zedler/patrick/grocy/fragment/BaseFragment.java:366 | String.split on one character yields no segment exactly when the string is non-empty and made only of that character |
| JavaText.SplitTrailingSeparators | app/src/main/java/xyz/zedler/patrick/grocy/fragment/BaseFragment.java:366-369 | a non-empty text free of the separator, followed by one or more separators, splits into that text alone (trailing empty strings are dropped) |
| JavaText.SplitFirst | app/src/main/java/xyz/zedler/patrick/grocy/fragment/BaseFragment.java:370 | the first segment of a non-empty split is the text before the first separator |
| JavaText.SplitSegmentsFree | app/src/main/java/xyz/zedler/patrick/grocy/fragment/BaseFragment.java:372 | no segment of a split contains the separator |
| JavaText.ParseInt | app/src/main/java/xyz/zedler/patrick/grocy/adapter/StockEntryAdapter.java:131-133 | Integer.parseInt accepts only an optionally signed, non-empty run of decimal digits whose value fits in 32 bits |
| JavaText.ParseIntOfIntToString | app/src/main/java/xyz/zedler/patrick/grocy/adapter/StockEntryAdapter.java:131-133 | every 32-bit int printed with String.valueOf parses back to itself |
| JavaText.IntToStringInjective | app/src/main/java/xyz/zedler/patrick/grocy/adapter/StockEntryAdapter.java:558-561 | distinct ints have distinct decimal strings, so the shopping-list test by string matches by product id |
| Sorting.SortBy | app/src/main/java/xyz/zedler/patrick/grocy/adapter/StockEntryAdapter.java:206-221 | the sort returns a permutation of its input of the same length |
| Sorting.SortBySorted | app/src/main/java/xyz/zedler/patrick/grocy/adapter/StockEntryAdapter.java:206-221 | under a total preorder the sort's result is ordered |
| Sorting.InsertSorted | app/src/main/java/xyz/zedler/patrick/grocy/adapter/StockEntryAdapter.java:206-221 | inserting into an ordered list keeps it ordered |
| Sorting.PermutationNoDuplicates | app/src/main/java/xyz/zedler/patrick/grocy/adapter/StockEntryAdapter.java:175 | a permutation of a repetition-free list is repetition-free |
| Sorting.NoDuplicatesCount | app/src/main/java/xyz/zedler/patrick/grocy/scanner/EmbeddedFragmentScannerMLKit.java:356-361 | a value of a repetition-free list occurs in it exactly once |
| Grouping.GroupKey | app/src/main/java/xyz/zedler/patrick/grocy/adapter/StockEntryAdapter.java:163 | an item goes into a group exactly when its group name is non-null and non-empty, and then under that name |
| Grouping.EveryItemInExactlyOneBucket | app/src/main/java/xyz/zedler/patrick/grocy/adapter/StockEntryAdapter.java:163-172 | an item without a group name is counted only in the ungrouped list, an item with one only in its own bucket, and its name is among the bucket keys |
| Grouping.GroupNamesNoDuplicates | app/src/main/java/xyz/zedler/patrick/grocy/adapter/StockEntryAdapter.java:164-168 | each group name becomes one bucket key |
| Grouping.GroupNamesMembership | app/src/main/java/xyz/zedler/patrick/grocy/adapter/StockEntryAdapter.java:163-169 | a name is a bucket key exactly when some item carries it, exactly when its bucket is non-empty |
| Grouping.BucketMapBuckets | app/src/main/java/xyz/zedler/patrick/grocy/adapter/StockEntryAdapter.java:164-169 | the map's keys are the group names and each holds the items of its group in input order |
| Grouping.CollectBuckets | app/src/main/java/xyz/zedler/patrick/grocy/adapter/StockEntryAdapter.java:126-173 | the bucketing loop yields the ungrouped items, the keys in order of first appearance and the per-name buckets |
| Grouping.GroupRows | app/src/main/java/xyz/zedler/patrick/grocy/adapter/StockEntryAdapter.java:188-202 | the group loop emits, per sorted name, its header and its bucket's sorted items |
| Grouping.GroupedRows | app/src/main/java/xyz/zedler/patrick/grocy/adapter/StockEntryAdapter.java:126-203 | the grouped branch emits the section layout of the grouped list |
| Grouping.RowsCount | app/src/main/java/xyz/zedler/patrick/grocy/adapter/StockEntryAdapter.java:390-393 | a row list is as long as its item rows plus its headers |
| Grouping.SectionsShape | app/src/main/java/xyz/zedler/patrick/grocy/adapter/StockEntryAdapter.java:183-202 | the ungrouped section (if any) comes first with a divider, then one section per sorted group name whose divider shows unless it is the first group with no ungrouped items |
| Grouping.SectionsFirstRow | app/src/main/java/xyz/zedler/patrick/grocy/adapter/StockEntryAdapter.java:183-199 | the first row is the ungrouped header when there are ungrouped items, otherwise the first group's header without divider |
| Grouping.SectionsPermutation | app/src/main/java/xyz/zedler/patrick/grocy/adapter/StockEntryAdapter.java:163-202 | the items of the emitted rows are a permutation of the input items |
| Grouping.SectionsHeaders | app/src/main/java/xyz/zedler/patrick/grocy/adapter/StockEntryAdapter.java:183-202 | one header per distinct group name plus one for the ungrouped items if any, and rows = items + headers |
| Grouping.SectionsSorted | app/src/main/java/xyz/zedler/patrick/grocy/adapter/StockEntryAdapter.java:183-202 | under a total preorder each section's items are sorted |
| Grouping.SortedGroupsFacts | app/src/main/java/xyz/zedler/patrick/grocy/adapter/StockEntryAdapter.java:175-182 | the sorted group names are repetition-free, are exactly the names items carry, and are ordered under a total preorder |
| Grouping.SectionizeFlatten | app/src/main/java/xyz/zedler/patrick/grocy/adapter/StockEntryAdapter.java:183-202 | reading the emitted rows back as header-led sections gives the sections |
| Grouping.FlattenReadBack | app/src/main/java/xyz/zedler/patrick/grocy/adapter/StockEntryAdapter.java:183-202 | the emitted rows' items are the sections' items in order and their header count is the section count |
| Grouping.EntriesReadBack | app/src/main/java/xyz/zedler/patrick/grocy/adapter/StockEntryAdapter.java:122-125 | the list without grouping has no header and its items are the input |
| StockGrouping.IdGroupingNeedsParsedId | app/src/main/java/xyz/zedler/patrick/grocy/adapter/StockEntryAdapter.java:130-161 | product-group, parent-product and location grouping give a group only when the id parses as an int and the lookup finds a non-empty name |
| StockGrouping.DueDateGrouping | app/src/main/java/xyz/zedler/patrick/grocy/adapter/StockEntryAdapter.java:145-149 | due-date grouping names the group date, two spaces and the human text; unknown modes give no group |
| StockGrouping.SortStockItems | app/src/main/java/xyz/zedler/patrick/grocy/adapter/StockEntryAdapter.java:206-221 | sortStockItems keeps the items (a permutation) |
| StockGrouping.SortStockItemsSorted | app/src/main/java/xyz/zedler/patrick/grocy/adapter/StockEntryAdapter.java:206-221 | under a total preorder sortStockItems orders the items |
| StockGrouping.GetGroupedListItems | app/src/main/java/xyz/zedler/patrick/grocy/adapter/StockEntryAdapter.java:110-204 | getGroupedListItems computes the grouped list: sorted items for no grouping, otherwise the section layout |
| StockGrouping.GroupedListPermutation | app/src/main/java/xyz/zedler/patrick/grocy/adapter/StockEntryAdapter.java:122-202 | every input item appears in the output exactly as often as in the input |
| StockGrouping.GroupedListHeaders | app/src/main/java/xyz/zedler/patrick/grocy/adapter/StockEntryAdapter.java:122-202 | no headers without grouping; otherwise one per distinct group name plus one for ungrouped items; length = items + headers |
| StockGrouping.UngroupedList | app/src/main/java/xyz/zedler/patrick/grocy/adapter/StockEntryAdapter.java:122-125 | with grouping none the output is exactly the sorted input with no headers |
| StockGrouping.GroupedListSections | app/src/main/java/xyz/zedler/patrick/grocy/adapter/StockEntryAdapter.java:183-202 | with grouping the list reads back as the ungrouped section then one section per sorted name, with the header text (value grouping adds the currency) and divider rule |
| StockGrouping.GroupedListGroupOrder | app/src/main/java/xyz/zedler/patrick/grocy/adapter/StockEntryAdapter.java:175-182 | the header names are distinct, are exactly the names items carry, and follow the value or name order |
| StockGrouping.GroupedListFirstRow | app/src/main/java/xyz/zedler/patrick/grocy/adapter/StockEntryAdapter.java:183-199 | the first row is the ungrouped header when there are ungrouped items, else the first group's header without divider |
| StockGrouping.GroupedListSorted | app/src/main/java/xyz/zedler/patrick/grocy/adapter/StockEntryAdapter.java:183-202 | under a total preorder every section's items are sorted |
| StockView.DueDateView | app/src/main/java/xyz/zedler/patrick/grocy/adapter/StockEntryAdapter.java:338-381 | without date tracking the line is hidden and its text untouched; emphasis implies visible; the colour is secondary exactly when not emphasised |
| StockView.DueDateVisible | app/src/main/java/xyz/zedler/patrick/grocy/adapter/StockEntryAdapter.java:345-359 | the line shows exactly when date tracking is on, there is a date and the list is sorted by due date or the item is due soon and not never-overdue; then it shows the human text |
| StockView.ShownOutsideDueDateSortIsEmphasised | app/src/main/java/xyz/zedler/patrick/grocy/adapter/StockEntryAdapter.java:347-355 | outside due-date sorting every shown line is emphasised and never-overdue items never show |
| StockView.DueDateColour | app/src/main/java/xyz/zedler/patrick/grocy/adapter/StockEntryAdapter.java:353-380 | a shown line is emphasised exactly when due soon; an emphasised overdue line is dirt for a best-before date and red for an expiry date, an emphasised line not overdue is yellow, a line not due soon is secondary |
| StockView.BindEntry | app/src/main/java/xyz/zedler/patrick/grocy/adapter/StockEntryAdapter.java:305-381 | a row shows its item; its shopping-list marker shows exactly when the list holds the product id's decimal string and the feature is on; it finds the map's unit under the stock unit id exactly when that id is in the map; it is highlighted exactly when its product is missing; and it has the due-date line of its date |
| StockView.ShoppingMarkerMatchesId | app/src/main/java/xyz/zedler/patrick/grocy/adapter/StockEntryAdapter.java:305-306 | a list holding the decimal string of one id marks exactly the product with that id (when the feature is on) |
| StockView.Lookup | app/src/main/java/xyz/zedler/patrick/grocy/adapter/StockEntryAdapter.java:550-551 | HashMap.get returns the key's value, or null exactly when the key is absent |
| StockDiff.Compare | app/src/main/java/xyz/zedler/patrick/grocy/adapter/StockEntryAdapter.java:520-578 | a true answer implies the same row type and unchanged modes, equal product ids for items, and equal items when contents are compared |
| StockDiff.AreItemsTheSameIff | app/src/main/java/xyz/zedler/patrick/grocy/adapter/StockEntryAdapter.java:510-577 | same item exactly when the types agree, no mode changed, and the product ids agree (items) or name and divider agree (headers) |
| StockDiff.ContentsSameImpliesItemsSame | app/src/main/java/xyz/zedler/patrick/grocy/adapter/StockEntryAdapter.java:510-518 | same contents implies same item |
| StockDiff.UnchangedListIsSame | app/src/main/java/xyz/zedler/patrick/grocy/adapter/StockEntryAdapter.java:520-578 | with nothing changed every row has the same contents as itself |
| StockDiff.ContentsSameKeepsEntryView | app/src/main/java/xyz/zedler/patrick/grocy/adapter/StockEntryAdapter.java:547-571 | rows with the same contents bind to the same view when they find the same unit |
| StockDiff.SameHeaderKeepsHeaderView | app/src/main/java/xyz/zedler/patrick/grocy/adapter/StockEntryAdapter.java:572-577 | headers judged the same item are equal |
| StockDiff.VanishedUnitGoesUnnoticed | app/src/main/java/xyz/zedler/patrick/grocy/adapter/StockEntryAdapter.java:550-556 | an otherwise unchanged row whose stock unit disappears from the unit map still has the same contents, although it bound a unit before and binds none now |
| StockAdapter.StockEntryAdapter.constructor | app/src/main/java/xyz/zedler/patrick/grocy/adapter/StockEntryAdapter.java:74-108 | the adapter stores its arguments and the grouped list of the given items |
| StockAdapter.StockEntryAdapter.ItemCount | app/src/main/java/xyz/zedler/patrick/grocy/adapter/StockEntryAdapter.java:390-393 | the item count is the number of shown items plus the headers |
| StockAdapter.StockEntryAdapter.ViewAt | app/src/main/java/xyz/zedler/patrick/grocy/adapter/StockEntryAdapter.java:280-388 | a header position binds that header's name and divider; an item position binds the item's view under the adapter's settings, sort mode, shopping-list ids, unit map and missing ids |
| StockAdapter.StockEntryAdapter.ReplaceState | app/src/main/java/xyz/zedler/patrick/grocy/adapter/StockEntryAdapter.java:437-447 | every list, map and mode field takes its new value |
| StockAdapter.StockEntryAdapter.UpdateData | app/src/main/java/xyz/zedler/patrick/grocy/adapter/StockEntryAdapter.java:404-449 | the state is replaced by the new list, ids, unit map, missing ids and modes; the diff compares old and new state; the shown items are a permutation of the new list and the count is items + headers |
| BaseFragment.KeyOfSplit | app/src/main/java/xyz/zedler/patrick/grocy/fragment/BaseFragment.java:376 | a pair's key is the first segment of splitting it at '=', and there is none exactly when the split is empty |
| BaseFragment.KeyOfPair | app/src/main/java/xyz/zedler/patrick/grocy/fragment/BaseFragment.java:376 | the key computation agrees with the key definition |
| BaseFragment.GetUriWithArgs | app/src/main/java/xyz/zedler/patrick/grocy/fragment/BaseFragment.java:365-391 | getUriWithArgs computes the filled link or the index error |
| BaseFragment.FillTemplate | app/src/main/java/xyz/zedler/patrick/grocy/fragment/BaseFragment.java:373-390 | the pair loop produces the link part, '?' and the query built pair by pair |
| BaseFragment.QueryErrorSticks | app/src/main/java/xyz/zedler/patrick/grocy/fragment/BaseFragment.java:374-376 | once a pair without key throws, the whole loop throws |
| BaseFragment.QueryErrorIff | app/src/main/java/xyz/zedler/patrick/grocy/fragment/BaseFragment.java:374-376 | the loop throws exactly when some template pair has no key |
| BaseFragment.NoQueryUnchanged | app/src/main/java/xyz/zedler/patrick/grocy/fragment/BaseFragment.java:366-369 | a link without '?' comes back unchanged |
| BaseFragment.TrailingQuestionMarksUnchanged | app/src/main/java/xyz/zedler/patrick/grocy/fragment/BaseFragment.java:366-369 | a non-empty link free of '?', followed by one or more '?', comes back unchanged |
| BaseFragment.UriErrorIff | app/src/main/java/xyz/zedler/patrick/grocy/fragment/BaseFragment.java:366-376 | the call throws exactly when the link is only '?' characters or some template pair has no key |
| BaseFragment.FilledLinkShape | app/src/main/java/xyz/zedler/patrick/grocy/fragment/BaseFragment.java:370-373 | the result starts with the text before the first '?' and the template is the last '?'-segment |
| BaseFragment.QueryAllFilled | app/src/main/java/xyz/zedler/patrick/grocy/fragment/BaseFragment.java:374-388 | with every key given, the query is the filled pairs joined by '&', plus '&' while the last pair is still to come |
| BaseFragment.FilledStep | app/src/main/java/xyz/zedler/patrick/grocy/fragment/BaseFragment.java:374-388 | a given key appends key=encode(value) and '&' unless it is the last pair |
| BaseFragment.QueryNothingFilled | app/src/main/java/xyz/zedler/patrick/grocy/fragment/BaseFragment.java:378-380 | with no key given, the query is empty |
| BaseFragment.QueryBeforeLast | app/src/main/java/xyz/zedler/patrick/grocy/fragment/BaseFragment.java:386-388 | before the last pair the query is empty or ends in '&' |
| BaseFragment.TrailingAmpersandWhenLastMissing | app/src/main/java/xyz/zedler/patrick/grocy/fragment/BaseFragment.java:378-388 | when the last pair's key has no value the query is empty or ends in a dangling '&' |
| BaseFragment.AllValuesGiven | app/src/main/java/xyz/zedler/patrick/grocy/fragment/BaseFragment.java:365-391 | with every value given the result is link, '?' and the filled pairs joined by '&' in template order |
| BaseFragment.NoValuesGiven | app/src/main/java/xyz/zedler/patrick/grocy/fragment/BaseFragment.java:365-391 | with no value given the result is the link part followed by '?' |
| BaseFragment.ErrorMessage | app/src/main/java/xyz/zedler/patrick/grocy/fragment/BaseFragment.java:99-107 | the permission message exactly when there is a network response with status 403, the undefined-error message otherwise |
| Scanner.FormatOfCode | app/src/main/java/xyz/zedler/patrick/grocy/scanner/EmbeddedFragmentScannerMLKit.java:318-356 | a constant read back names a format with that constant |
| Scanner.FormatCodeRoundTrip | app/src/main/java/xyz/zedler/patrick/grocy/scanner/EmbeddedFragmentScannerMLKit.java:318-356 | each format has its own ML Kit constant |
| Scanner.EnabledBarcodeFormats | app/src/main/java/xyz/zedler/patrick/grocy/scanner/EmbeddedFragmentScannerMLKit.java:309-364 | only format constants; a format is enabled exactly when a preference names it (filter off) or it is QR and QR is wanted; no constant twice; with the QR filter only QR |
| Scanner.CollectStep | app/src/main/java/xyz/zedler/patrick/grocy/scanner/EmbeddedFragmentScannerMLKit.java:316-358 | each preference adds its format's constant once and unrecognised strings add nothing |
| Scanner.CollectedWithQr | app/src/main/java/xyz/zedler/patrick/grocy/scanner/EmbeddedFragmentScannerMLKit.java:360-362 | QR is appended when wanted and missing, or always under the QR filter |
| Scanner.AppendFresh | app/src/main/java/xyz/zedler/patrick/grocy/scanner/EmbeddedFragmentScannerMLKit.java:360-362 | appending a value not yet present keeps the list repetition-free |
| Scanner.QrExactlyOnce | app/src/main/java/xyz/zedler/patrick/grocy/scanner/EmbeddedFragmentScannerMLKit.java:360-362 | when QR is wanted it is in the list exactly once |
| Scanner.QrOptionsNeverDefault | app/src/main/java/xyz/zedler/patrick/grocy/scanner/EmbeddedFragmentScannerMLKit.java:143-151 | scanning for QR never leaves the options at the default, and the QR filter gives options of QR alone |
| Scanner.UnrecognisedIgnored | app/src/main/java/xyz/zedler/patrick/grocy/scanner/EmbeddedFragmentScannerMLKit.java:316-358 | an unrecognised preference string changes nothing |
| Scanner.ConvertIntegers | app/src/main/java/xyz/zedler/patrick/grocy/scanner/EmbeddedFragmentScannerMLKit.java:366-372 | a fresh array of the list's length holding its values in order |
| Scanner.BuildOptions | app/src/main/java/xyz/zedler/patrick/grocy/scanner/EmbeddedFragmentScannerMLKit.java:143-151 | the options stay default exactly for an empty list and otherwise name the formats in order |
| Scanner.CountOutside | app/src/main/java/xyz/zedler/patrick/grocy/scanner/EmbeddedFragmentScannerMLKit.java:284-294 | at most as many corners outside as corners |
| Scanner.AcceptedValue | app/src/main/java/xyz/zedler/patrick/grocy/scanner/EmbeddedFragmentScannerMLKit.java:272-299 | a scan is accepted exactly when there is one non-null barcode with a non-empty raw value and corner points of which at most two lie outside the inset preview; it yields that raw value |
| Scanner.CornersAcceptable | app/src/main/java/xyz/zedler/patrick/grocy/scanner/EmbeddedFragmentScannerMLKit.java:284-294 | the corner loop accepts exactly when at most two corners lie outside |
| Scanner.CountOutsideGrows | app/src/main/java/xyz/zedler/patrick/grocy/scanner/EmbeddedFragmentScannerMLKit.java:284-294 | the outside count of a prefix never exceeds that of the whole |
| Scanner.InsideCornersAccepted | app/src/main/java/xyz/zedler/patrick/grocy/scanner/EmbeddedFragmentScannerMLKit.java:272-299 | a barcode with a raw value and all corners inside is accepted |
| Scanner.NoCornerOutside | app/src/main/java/xyz/zedler/patrick/grocy/scanner/EmbeddedFragmentScannerMLKit.java:284-294 | no corner outside counts zero |
| Scanner.TwoBarcodesIgnored | app/src/main/java/xyz/zedler/patrick/grocy/scanner/EmbeddedFragmentScannerMLKit.java:273-277 | a frame with two barcodes is ignored |
| Scanner.EmbeddedFragmentScannerMLKit.constructor | app/src/main/java/xyz/zedler/patrick/grocy/scanner/EmbeddedFragmentScannerMLKit.java:84-176 | the options name exactly the enabled formats and no scanner is open |
| Scanner.EmbeddedFragmentScannerMLKit.SetScannerVisibilityLive | app/src/main/java/xyz/zedler/patrick/grocy/scanner/EmbeddedFragmentScannerMLKit.java:183-190 | only the suppress flag changes |
| Scanner.EmbeddedFragmentScannerMLKit.OnVisibilityChanged | app/src/main/java/xyz/zedler/patrick/grocy/scanner/EmbeddedFragmentScannerMLKit.java:191-202 | visible with the flag set clears it and starts nothing; visible otherwise starts the scanner and locks rotation; hidden stops it and unlocks |
| Scanner.EmbeddedFragmentScannerMLKit.OnResume | app/src/main/java/xyz/zedler/patrick/grocy/scanner/EmbeddedFragmentScannerMLKit.java:206-208 | hidden: nothing changes; visible without permission: one more permission request and nothing else; visible with permission: a client from the options, camera bound, screen kept on |
| Scanner.EmbeddedFragmentScannerMLKit.OnPause | app/src/main/java/xyz/zedler/patrick/grocy/scanner/EmbeddedFragmentScannerMLKit.java:210-212 | pausing stops the scanner |
| Scanner.EmbeddedFragmentScannerMLKit.OnDestroy | app/src/main/java/xyz/zedler/patrick/grocy/scanner/EmbeddedFragmentScannerMLKit.java:214-221 | destroying stops the scanner and unlocks rotation |
| Scanner.EmbeddedFragmentScannerMLKit.StopScanner | app/src/main/java/xyz/zedler/patrick/grocy/scanner/EmbeddedFragmentScannerMLKit.java:223-230 | afterwards no scanner is open, the camera is unbound and the screen may turn off |
| Scanner.EmbeddedFragmentScannerMLKit.StartScannerIfVisible | app/src/main/java/xyz/zedler/patrick/grocy/scanner/EmbeddedFragmentScannerMLKit.java:232-270 | nothing when hidden; a permission request when denied; otherwise a new client from the options, the camera bound and the screen kept on |
| Scanner.EmbeddedFragmentScannerMLKit.OnAnalyzerResult | app/src/main/java/xyz/zedler/patrick/grocy/scanner/EmbeddedFragmentScannerMLKit.java:255-263 | results are ignored while no scanner is open |
| Scanner.EmbeddedFragmentScannerMLKit.OnScanSuccess | app/src/main/java/xyz/zedler/patrick/grocy/scanner/EmbeddedFragmentScannerMLKit.java:272-299 | the recognised value is the accepted value; accepting stops the scanner, rejecting changes nothing |

## Left out

- View inflation, view holders, fonts, colour resources and Android view
  visibility. Only the decisions that feed them are modelled.
- `DiffUtil.calculateDiff` and `dispatchUpdatesTo` are not modelled.
  `UpdateData` returns the callback.
- `getItemViewType` and `onCreateViewHolder` are not modelled. They are
  toolkit glue; the row type is the `Header`/`Entry` constructor.
- The bodies of `SortUtil`, `DateUtil`, `NumUtil.trimPrice`/`trim`,
  `NumUtil.isStringDouble`, `PluralUtil` and `AmountUtil`. They are not part of
  this model (doubles and locale formatting). They appear as function
  parameters: the item comparator, the group-name comparator, the
  days-from-now count and text, and the value and calorie group names.
- StockGrouping.SortStockItems: `Collections.sort` with a `SortUtil`
  comparator is modelled as a stable insertion sort by an abstract comparator.
  It is proved ordered only when the comparator is a total preorder.
- `HashMap.keySet()` iteration order is unspecified. The model takes first
  appearance. The group-name sort is stable, so that order survives among
  names the comparator ranks equal. For such names it fixes the order of
  their sections and which header hides its divider. The model picks one of
  the outputs Java may produce.
- StockGrouping.GroupingOther and StockGrouping.SortOther may hold the string
  of a named mode (for example the due-date sort string). Such a value stands
  for the same Java string as the named constructor, but the model's `!=` on
  modes (as in StockDiff.Compare) tells them apart where Java's `equals` would
  not. The model assumes the preference strings are mapped to the named
  constructors first.
- `StockView.NeverOverdue` ("2999-12-31") and `StockView.DueTypeBestBefore`
  (1) are assumed values. `Constants.java` and `StockItem.java` are not part of
  this model.
- The header divider is a boolean. `GroupHeader` stores it as an int and
  compares it with 1; a new header is assumed to show its divider, and
  `GroupHeader.java` is not part of this model.
- JavaText.ParseInt: accepts ASCII decimal digits only. Java's
  `Integer.parseInt` also accepts other Unicode decimal digits (through
  `Character.digit`); the model rejects them. `NumUtil.isStringInt` is
  assumed to accept exactly what the model's ParseInt accepts.
- `Product.equals` and `StockItem.equals` are modelled as equality of the
  modelled fields. `Product.java` and `StockItem.java` are not part of this
  model. If they did not override `equals`, Java would compare identity and
  every reloaded row would differ.
- `updateData`'s `Context` argument is taken to be the adapter's own context
  and labels.
- The `updateData` list fields are replaced by assignment rather than by
  `clear` plus `addAll`. Aliasing of the caller's lists with the adapter's own
  lists is not modelled.
- StockGrouping.GetGroupedListItems: with grouping mode none, the source sorts
  the caller's own `stockItems` list in place before copying it. This happens
  on the constructor and `updateData` paths. The model takes a sequence and
  returns a new one, so the reordering of the caller's list is not captured.
  The ungrouped and per-group lists are the method's own, and sorting them in
  place is invisible outside.
- `URLEncoder.encode` is an uninterpreted total function, so its
  `UnsupportedEncodingException` (caught and ignored) cannot happen.
  `Uri.parse` is not modelled; the built string is returned. A bundle is a
  map from keys to the string of each non-null value.
- Navigation, SavedStateHandle, LiveData registration, animations and the
  empty hooks of `BaseFragment` are not modelled.
- CameraX, ML Kit, permission dialogs, haptics, the torch, `keepScreenOn` and
  rotation locking are recorded as plain fields of the scanner class
  (`cameraBound`, `screenKeptOn`, `rotationLocked`, `permissionRequests`).
  The torch is left out, and so is the layout sizing with `dpToPx`.
- The barcode format preference strings are modelled as constructors. Their
  `Constants` values are not part of this model. The ML Kit constants are
  ML Kit's published `Barcode.FORMAT_*` values.
- The preference set's iteration order is unspecified. The model picks any
  element at each step.
- Scanner.AcceptedValue: `strokeWidth * 2` and the preview-size arithmetic are
  unbounded integers. They do not wrap at 32 bits.
- Scanner.EmbeddedFragmentScannerMLKit.OnScanSuccess: the listener is
  modelled as the returned value. A null listener, which drops the value, is
  not modelled.
- `takeSmallQrCodeFormat` and the torch toggle are not modelled; they are
  configuration plumbing.
