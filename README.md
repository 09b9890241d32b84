# Hair-salon listing scraper: the decision logic, in Dafny

The scraper searches Google Maps for hair salons, city by city, in one US
state. For each listing it records eight fields: name, address, phone,
website, email, listing reference, latitude and longitude. It writes the
cities of a state to spreadsheets, and a separate combiner later merges the
batch workbooks of a state into one.

This project models the deterministic core of that pipeline, separated from
the browser, the HTTP client and the spreadsheet library around it. What
those produce becomes an input: page element texts, feed heights, fetch
outcomes, regular-expression scan results, the order in which crawls finish,
the directory listing and the timestamp.

Modules (one `.dfy` file each):

- `Text` (text.dfy): the string operations the code relies on.
  - Prefix and suffix tests, substring search and ASCII lower-casing.
  - Character replacement, stripping with Python's whitespace set, `split`, `s[:n]`, `str(n)`.
  - Python's ordering of strings.
- `Dicts` (dicts.dfy): Python's insertion-ordered `dict`.
  - Assignment to a known key keeps its place.
  - `del` removes keys.
- `Email` (email.dfy): the choice `extract_email_fast` makes once the website has been fetched.
- `ListingUrl` (listing_url.dfy): `extract_name_from_url` and `extract_lat_lng_from_url`.
  - A hand-written matcher for `!3d(-?\d+\.\d+)!4d(-?\d+\.\d+)`.
  - `%XX` decoding.
- `Fields` (fields.dfy): the business record and how it is picked from a page.
  - The address fallback.
  - The phone picker: a matcher for `\+?\d[\d\s().-]{8,}\d`.
  - The eight-field record of `scrape_business_details`.
- `Scroll` (scroll.dfy): the `scroll_results_feed` loop over a sequence of height readings.
- `Crawl` (crawl.dfy): `scrape_city` and the `city_results` filter of main.py.
  - The search reference and `build_search_terms`.
  - The de-duplicated link set and the record filter.
- `Export` (export.dfy): which cities become sheets, and their names.
  - Sheet names are truncated to 31 characters.
  - The file names of main.py and main_final.py.
- `Batch` (batch.dfy): main_final.py's `main`.
  - A sliding window of three crawls.
  - The insertion-ordered buffer of finished cities.
  - A flush every `BATCH_SIZE` completions, with its checkpoint, and the final flush.
  - Driven by any completion order the window allows.
- `Combine` (combine.py's `combine_state_excels`):
  - The matching files are read sheet by sheet.
  - Non-empty sheets are merged by name.
  - Rows are de-duplicated on `Google Maps URL`, keeping the first.
  - Cities are written in ascending order.

Imperative code is modelled as methods with loops:
- the scroll loop;
- `scrape_city`'s link and result loops;
- the batch loop of `main`;
- the file, sheet and city loops of `combine_state_excels`.

Each such method is proved against a specification function, and that function's properties are proved as lemmas. The rest is functions and lemmas.

Where the code differs from its documented intent, the model follows the code:

- **Image-extension test.** It is applied to the whole lower-cased first match, not to its local part.
- **Digit-share limit.** It is strict: a local part that is exactly half digits ("a1b2c3d4") passes.
- **Query suffix.** main.py appends ",USA" and main_final.py appends ", USA".
- **Address control.** main.py looks it up before the optional wait and never looks again. main_final.py waits first.
- **Output directory.** main.py writes its workbook to the working directory, not to `state_city_excels`.
- **Checkpoint.** It counts completions, not rows. Crawls finish out of order, so the saved index can name a row still in flight while a later row has finished (`Batch.CheckpointMayNameUnfinishedRow`).
- **Resume.** `load_progress` is never called, so no resumption is modelled.
- **Combined state name.** The combiner reads it as the second `_`-separated piece of the first file name. A state of several words, written `New_Mexico` by the batch writer, comes back as `New`.
- **Duplicate city names.** Two rows with the same city overwrite each other's entry in the buffer. The order and content properties of the batch loop are therefore stated for distinct city names.

## Model

| member | source | states |
|---|---|---|
| Text.Split | combine.py:97 | `split`: at least one piece, the first is the text before the first separator, no piece contains the separator, and joining the pieces with the separator gives the text back |
| Text.SplitSecond | combine.py:97-99 | when the separator occurs, there is a second piece and it is the text between the first and the next separator |
| Text.TakeUntilAppend | combine.py:97 | the text before the first separator of `a + b` stays in `a` when `a` has one and runs into `b` otherwise |
| Text.Truncate | main_final.py:282 | `s[:n]` has at most `n` characters, is a prefix of `s`, and is `s` itself when `s` is short enough |
| Text.Strip | main_final.py:114 | the stripped text is a slice of the input with no Python whitespace at either end |
| Text.StripRemovesOnlyWhitespace | main_final.py:114 | everything cut away before and after the stripped slice is whitespace |
| Text.ReplaceCharRoundTrip | main_final.py:234 | replacing spaces by '+' and back restores a text that had no '+' |
| Text.LessTransitive | combine.py:109 | Python's string order is transitive |
| Text.LessTotal | combine.py:109 | Python's string order is total on distinct strings |
| Dicts.Put | main_final.py:351 | `d[k] = v` maps `k` to `v`; a known key keeps its place, a new key goes last |
| Dicts.KeptPositions | main_final.py:365-366 | the positions of the keys that are not deleted, ascending, and all of them |
| Dicts.Without | main_final.py:365-366 | the remaining keys are the keys at those positions, in their original order |
| Dicts.WithoutMembers | main_final.py:365-366 | a key remains exactly when it was listed and not deleted |
| Dicts.WithoutDistinct | main_final.py:365-366 | deleting keys from a list without repeats leaves a list without repeats |
| Dicts.DeleteKeys | main_final.py:365-366 | `del d[c]` for each `c` removes exactly those keys and keeps the order of the others |
| Dicts.DeleteEveryKey | main_final.py:365-366 | deleting every key of a dict leaves it empty |
| Email.Clean | main_final.py:85-87 | the cleaned text is no longer than the input and holds only lower-case `[\w@.+-]` characters; a text already of that form is left as it is |
| Email.PlaceholdersAreClean | main_final.py:47-55 | every placeholder address is already in cleaned form |
| Email.PlaceholderInAnyCaseRejected | main_final.py:83-92 | a candidate that is a placeholder address in any letter case makes the page give "NA" |
| Email.ExtractEmail | main_final.py:65-108 | the result is "NA", the first `mailto:` capture, or the first pattern match; it is never other text |
| Email.NonSuccessIsNA | main_final.py:72-73 | a failed fetch or a status other than 200 gives "NA" |
| Email.MailtoWins | main_final.py:78-80 | with a `mailto:` capture, the first capture is returned without any further check |
| Email.DummyAnywhereRejects | main_final.py:89-92 | one placeholder among the cleaned candidates rejects the page, even when the first match is real |
| Email.CleanIgnoresCase | main_final.py:86 | candidates differing only in letter case clean to the same text |
| Email.FirstMatchAcceptedIff | main_final.py:83-105 | without captures, the first match is returned exactly when there is one, no candidate is a placeholder, and it passes the extension and digit-share checks; otherwise "NA" |
| Email.ResultIsNAOrAddress | main_final.py:65-108 | the result is "NA" or contains '@' |
| Email.DigitShareBoundary | main_final.py:101-103 | on two sample local parts: "a1b2c3d4" (exactly half digits) passes and "a1b2c3d45" (more than half) is rejected |
| ListingUrl.Unquote | main_final.py:114 | decoding never lengthens the text and leaves text without '%' unchanged |
| ListingUrl.UnquoteQuote | main_final.py:114 | decoding the percent-encoding of any 8-bit text gives the text back |
| ListingUrl.PlaceSegment | main_final.py:113 | absent exactly when "/place/" does not occur; otherwise the slash-free text after the first "/place/" up to the next '/' |
| ListingUrl.ExtractName | main_final.py:111-116 | "NA" without "/place/"; otherwise the segment decoded, then '+' turned into spaces, then stripped |
| ListingUrl.NameHasNoPlusAndIsStripped | main_final.py:114 | decoding comes before '+' becomes a space, so no '+' survives, and the name has no surrounding whitespace |
| ListingUrl.PlainSegmentIsName | main_final.py:113-114 | a segment without escapes, '+' or surrounding blanks is the name itself |
| ListingUrl.DigitRunEnd | main_final.py:133 | the end of the maximal run of digits from a position |
| ListingUrl.NumberEnd | main_final.py:133 | where a greedy `-?\d+\.\d+` matched at a position ends; the match is never followed by a digit |
| ListingUrl.NumberEndSound | main_final.py:133 | what `NumberEnd` accepts has the shape `-?\d+\.\d+` |
| ListingUrl.NumberEndFinds | main_final.py:133 | every coordinate in the text at a position is found there, possibly extended by trailing digits |
| ListingUrl.NumberEndExact | main_final.py:133 | a coordinate not followed by a digit is matched exactly |
| ListingUrl.NumberShape | main_final.py:133 | digits, a '.', and more digits after an optional '-' form a coordinate |
| ListingUrl.MatchAt | main_final.py:133 | a match at a position is a "!3d<lat>!4d<lng>" occurrence there |
| ListingUrl.MatchAtSound | main_final.py:133 | both captures of a match are coordinates |
| ListingUrl.MatchAtFromEnds | main_final.py:133 | the captures are read off from where the two numbers end |
| ListingUrl.MatchIsPair | main_final.py:133 | a pair whose numbers end where the captures end is exactly what is captured there |
| ListingUrl.LatitudeEnds | main_final.py:133 | the latitude of a pair is matched up to the "!4d" marker |
| ListingUrl.SearchFrom | main_final.py:133 | `re.search`: the match at the leftmost position that has one, or none when no position does |
| ListingUrl.SearchSkips | main_final.py:133 | positions without a match do not change what the search finds |
| ListingUrl.SearchFindsLeftmost | main_final.py:133 | the search returns the match at the leftmost matching position |
| ListingUrl.ExtractLatLng | main_final.py:131-138 | ("NA", "NA") or two coordinates that occur in the reference as "!3d<lat>!4d<lng>" |
| ListingUrl.PairIsFound | main_final.py:131-138 | a reference holding a well-formed pair never yields ("NA", "NA") |
| ListingUrl.FirstPairWins | main_final.py:131-138 | the leftmost pair, not followed by a further digit, is returned exactly |
| ListingUrl.PairMatched | main_final.py:133 | a well-formed pair not followed by a digit is exactly what the pattern captures where it starts |
| ListingUrl.NotNAWhenFound | main_final.py:131-138 | a match anywhere means coordinates are returned |
| ListingUrl.NotCoordinateNA | main_final.py:138 | the sentinel is not a coordinate, so the two outcomes cannot be confused |
| Fields.FirstAddressLine | main.py:146-148 | the index of the first line with a comma and a street token, with no such line before it; none when no line qualifies |
| Fields.NoAddressLineGivesNA | main.py:146-151 | a panel without a qualifying line gives "NA" |
| Fields.FirstAddressLineWins | main.py:146-148 | the fallback returns the first qualifying line, stripped |
| Fields.FirstAddressLineIs | main.py:146-148 | the first qualifying line is the one found |
| Fields.AddressFallback | main.py:139-151 | no panel gives "NA"; any other result is a stripped panel line with a comma and a street token |
| Fields.StMatchesInsideWords | main.py:147 | the token test is a substring test: "State" qualifies through "St" |
| Fields.PhoneAt | main.py:35 | the end of the phone pattern matched at a position, if it matches there |
| Fields.ShapedIsSpan | main.py:35 | a slice has the phone shape exactly when its part after an optional '+' is a digit, eight or more class characters, and a digit |
| Fields.PhoneAtSound | main.py:35 | what matches at a position has the phone shape |
| Fields.PhoneAtComplete | main.py:35 | every phone-shaped text from a position is covered by the match there |
| Fields.PhoneAtLongest | main.py:35 | nothing longer than the match at a position has the phone shape |
| Fields.ClassRunReaches | main.py:35 | the greedy class run from inside a phone span reaches the span's end |
| Fields.FirstPhoneFrom | main.py:237 | the leftmost position with a match, and no match before it |
| Fields.PickPhoneIsLeftmostLongest | main.py:235-239 | "NA" exactly when no phone-shaped text occurs; otherwise the leftmost phone-shaped text, taken as long as possible |
| Fields.PickPhone | main.py:235-239 | "NA" or a phone-shaped text of at least ten characters (optional '+', a digit at each end) that occurs in the control's text |
| Fields.PickAddress | main.py:227-232 | an address control whose stripped text is not "NA" gives that text; otherwise "NA" or a stripped qualifying panel line |
| Fields.Row | main_final.py:276-280 | a record becomes eight cells in column order, the listing reference under `Google Maps URL` |
| Fields.ScrapeBusinessDetails | main.py:207-254 | no record exactly when navigation fails |
| Fields.RecordName | main.py:222-223 | the name is the heading, or else a name from the listing reference with no '+' and no edge blanks |
| Fields.RecordAddress | main.py:227-232 | the address is "NA", the stripped address control, or a stripped qualifying panel line |
| Fields.RecordPhone | main.py:235-239 | the phone is "NA" or a phone-shaped text of at least ten characters found in the phone control |
| Fields.RecordContact | main.py:241-248 | the website is the link when there is one; the email is "NA", or the first `mailto:` capture or first email match of a successful fetch, and only when there is a website |
| Fields.RecordLocation | main.py:252-254 | the reference is kept; the coordinates are ("NA", "NA") or a pair that occurs in it |
| Fields.NoWebsiteNoEmail | main.py:245-248 | without a website, the fetch is never consulted and the email is "NA" |
| Fields.FallbackOnlyWhenNA | main.py:228-232 | an explicit address other than "NA" is used as is, whatever the panel holds |
| Fields.MissingAddressFallsBack | main.py:228-232 | without an address control, the address is the panel fallback |
| Scroll.PollsFrom | main_final.py:148-162 | the number of polls: one past the first reading that is a second stall in a row, or the attempt budget |
| Scroll.Polls | main_final.py:148-162 | never more polls than the attempt budget |
| Scroll.ScrollResultsFeed | main_final.py:140-162 | the loop makes no poll without a feed, and otherwise exactly `Polls` of the readings |
| Scroll.StopsOnlyAtDoubleStall | main_final.py:154-160 | an early stop happens exactly at the first reading that repeats the one before twice in a row |
| Scroll.GrowingFeedUsesAllAttempts | main_final.py:148 | a feed that grows after every scroll uses the whole budget |
| Scroll.StopsAfterFourPolls | main_final.py:145-162 | readings 100, 200, 200, 200 stop after the fourth poll |
| Scroll.EmptyFeedStopsAfterTwo | main_final.py:145-160 | a first reading of 0 already counts as a stall: readings 0, 0 stop after two polls |
| Scroll.AttemptBudgets | main.py:153 | at most 25 polls in main_final.py and 60 in main.py, and exactly that many when the feed height changes at every reading |
| Crawl.BuildSearchTerms | main.py:25-28 | one query: "Hair Salon in ", then the city, then ", " and the state name, and nothing else |
| Crawl.SearchTermsNameTheCity | main.py:25-28 | two different cities of a state never get the same query |
| Crawl.SearchUrl | main.py:318 | the search reference starts with the base reference and contains no space |
| Crawl.SearchUrlUsesSearchTerm | main.py:318 | the inline query is `build_search_terms`' query with the country appended, spaces encoded as '+' |
| Crawl.SearchUrlRoundTrip | main.py:318 | decoding '+' back into spaces recovers the query when city and state have no '+' |
| Crawl.VariantsDiffer | main.py:318 | main.py and main_final.py never build the same reference for a city |
| Crawl.LinkSet | main.py:326-330 | the links collected are exactly the present, non-empty `href`s |
| Crawl.Collect | main.py:335-344 | the records of the visited references that produced one, at most one per reference |
| Crawl.ScrapeCity | main_final.py:221-260 | a failed search gives no records; otherwise each collected reference is visited once, and the results are the records of those that produced one, in visiting order |
| Crawl.OneRecordPerReference | main.py:335-344 | at most one record per distinct reference, and every record comes from a collected reference |
| Crawl.CityResults | main.py:387 | the filter keeps exactly the cities with a non-empty result, and only non-empty results |
| Crawl.CityResultsKeepsLast | main.py:387 | a city's entry is its last non-empty result |
| Crawl.CityResultsKeysGrow | main.py:387 | later results only append cities to the key order |
| Crawl.CityResultsFirstArrival | main.py:387 | a city is keyed right after the cities whose first non-empty result came before its own |
| Export.RecordPositions | main_final.py:272-274 | the positions of the cities holding records, ascending, and all of them |
| Export.ExportSheets | main_final.py:271-283 | every sheet written holds records and has a name of at most 31 characters, and every city with records gets its sheet |
| Export.SheetsOf | main_final.py:271-283 | one sheet per city holding records, in the dict's key order; each holds that city's records under its name cut to 31 characters |
| Export.OneSheetPerCity | main_final.py:272-283 | with distinct keys, no two sheets come from the same city |
| Export.EveryNonEmptyCityExported | main_final.py:272-283 | every city with records gets its sheet, holding its records |
| Export.NothingToExport | main_final.py:272-274 | with no city holding records, no sheet is written |
| Export.FileStateName | main_final.py:268 | spaces of the state name become '_' |
| Export.StateFileName | main.py:286 | main.py's file name starts with the state code and '_' and ends in ".xlsx" |
| Export.BatchSuffix | main_final.py:265 | no batch suffix exactly when there is no batch number |
| Export.BatchBaseName | main_final.py:268 | main_final.py's file name starts with the state code and '_' and ends in ".xlsx" |
| Export.BatchFilePath | main_final.py:266-269 | the file is written in the output directory, under a name that starts with the state code and '_' and ends in ".xlsx" |
| Batch.CheckpointAfter | main_final.py:363 | the checkpoint after at least one completion is at least the start index |
| Batch.Admitted | main_final.py:321-337 | how far the row iterator has advanced after a given number of completions: three ahead of them, never past the last row |
| Batch.AdmissionStep | main_final.py:372-384 | a finishing crawl is one of the state's rows from the start index on; the window then admits the next row, if any |
| Batch.FlushesAppend | main_final.py:357-370 | a flush at a multiple of `BATCH_SIZE`, numbered in turn with the checkpoint formula, keeps the flush list well formed |
| Batch.FlushedBufferOk | main_final.py:365-366 | the buffer emptied by a flush is a valid empty buffer |
| Batch.FlushStep | main_final.py:355-370 | a flush happens exactly when the count reaches a multiple of `BATCH_SIZE`; it is numbered in turn, has the checkpoint formula, and leaves the buffer empty |
| Batch.OrderStep | main_final.py:351 | with distinct names, a finishing city is new to the buffer and goes last in it |
| Batch.OrderFlush | main_final.py:357-366 | after a flush, the flushed cities followed by the buffer are still the finished cities in finishing order |
| Batch.BatchIsWholeBuffer | main_final.py:357-358 | the last `BATCH_SIZE` keys of a buffer with at most that many keys are the whole buffer |
| Batch.CompleteOk | main_final.py:347-384 | one completion preserves the run invariant: admission, flush numbering and checkpoints, buffer size, and finishing order |
| Batch.InFlightRow | main_final.py:347-357 | a crawl in flight is a row of the state, and the buffer never outgrows a batch |
| Batch.Complete | main_final.py:347-384 | one completion: stores the city, flushes and empties the buffer at a multiple of `BATCH_SIZE`, admits the next row, and keeps the run invariant |
| Batch.Prime | main_final.py:323-337 | up to three rows from the start index are in flight before any completion |
| Batch.LoopExit | main_final.py:342 | when nothing is in flight, every row from the start index has finished, in the completion order |
| Batch.ValuesStep | main_final.py:351-358 | every buffered or flushed city maps to what its own crawl produced |
| Batch.FinalFlush | main_final.py:387-391 | a final flush exactly when the buffer is non-empty, with the current batch number and the checkpoint of all completions |
| Batch.RunRegion | main_final.py:315-391 | one flush per `BATCH_SIZE` completions, numbered from `START_FROM_INDEX // BATCH_SIZE + 1`, with checkpoints `START_FROM_INDEX + completed - 1`; a final flush exactly when the count is not a multiple; with distinct names, each city is flushed once, in finishing order, with its own data, and every full batch has `BATCH_SIZE` cities |
| Batch.RunTargetState | main_final.py:18-19 | with 25 cities per batch from row 0: batch files numbered from 1, the t-th checkpoint is row 25t+24, and a last batch exactly when the count is not a multiple of 25, with checkpoint the last row |
| Batch.CheckpointMayNameUnfinishedRow | main_final.py:363 | a legal completion order in which the first checkpoint names a row still in flight while a later row has finished |
| Batch.LastKeys | main_final.py:357 | `list(d.keys())[-n:]`: the last `n` keys, or all of them |
| Combine.MatchingPositions | combine.py:23-24 | the listing positions of the files named `{code}_*.xlsx`, ascending, and all of them |
| Combine.Matching | combine.py:23-24 | the files selected are the listed ones at those positions, in listing order |
| Combine.MatchingMembers | combine.py:23-24 | a file is selected exactly when it is listed and named `{code}_*.xlsx` |
| Combine.FirstMatchingIsFirstListed | combine.py:23-27 | the first file selected is the first matching one in the listing |
| Combine.FillNa | combine.py:56 | every blank cell becomes "NA"; every other cell keeps its text |
| Combine.ReadablePrefix | combine.py:46-72 | the sheets read before the first one that raises, all of them read |
| Combine.Kept | combine.py:53-55 | the tables merged from a workbook's sheets are all non-empty |
| Combine.WorkbookTables | combine.py:46-72 | a workbook contributes only non-empty tables |
| Combine.AllTables | combine.py:42-72 | the tables of all workbooks, all non-empty |
| Combine.AddTable | combine.py:57-64 | a new city is appended with its rows; a known city keeps its place and gets the rows appended to its own |
| Combine.Union | combine.py:57-64 | the merged dict has exactly the sheet names of the tables merged |
| Combine.UnionIsConcatenation | combine.py:58-64 | each city holds the rows of all its sheets concatenated, in file and sheet order |
| Combine.UnionKeepsEveryRow | combine.py:66-67 | merging loses no row: the cities together hold `total_records` rows |
| Combine.DropDuplicates | combine.py:83-86 | de-duplication never adds rows |
| Combine.FirstIndices | combine.py:83-86 | the positions of the first row of each URL, ascending, and all of them |
| Combine.DropDuplicatesKeepsFirst | combine.py:83-86 | the surviving rows are exactly the first row of each URL, in input order |
| Combine.DropDuplicatesUrls | combine.py:83-86 | no two surviving rows share a URL, and every URL of the input survives |
| Combine.DropDuplicatesUnchangedIff | combine.py:83-89 | nothing is dropped exactly when no URL repeats; otherwise rows are dropped |
| Combine.DropDuplicatesIdempotent | combine.py:83-86 | de-duplicating again drops nothing |
| Combine.SortKeys | combine.py:109 | the sorted cities are a permutation of the dict's cities |
| Combine.InsertAscending | combine.py:109 | inserting a new city into an ascending list keeps it ascending |
| Combine.SortKeysAscending | combine.py:109 | the cities are written in strictly ascending order, each exactly once |
| Combine.StateName | combine.py:95-99 | the state read from a file name never contains '_' |
| Combine.StateNameAfterCode | combine.py:95-99 | from `{code}_{rest}`, the state is `rest` up to its first '_' |
| Combine.StateNameOfBatchFile | combine.py:95-99 | on a batch file name, the state read back is the written state name up to its first '_' |
| Combine.OneWordStateRecovered | combine.py:95-99 | a one-word state survives the round trip through the batch file name |
| Combine.MultiWordStateKeepsFirstWord | combine.py:95-99 | a state of several words is read back as its first word |
| Combine.FileStateNameOfWords | main_final.py:268 | the space after a state's first word is written as '_' |
| Combine.Deduplicated | combine.py:80-86 | de-duplicating every city keeps the dict's cities and their order |
| Combine.DedupRecords | combine.py:117 | de-duplication never raises the record count, and keeps it exactly when no city repeats a URL |
| Combine.DuplicatesRemoved | combine.py:117-126 | `total_records - final_records` is never negative, and is zero exactly when no city has two rows with the same URL |
| Combine.OutputPath | combine.py:101-104 | the combined file is written in the output directory, named from the state code and ending in `_COMBINED_<timestamp>.xlsx` |
| Combine.Sheets | combine.py:108-112 | one sheet per city, each holding a city's rows under its name cut to 31 characters |
| Combine.CombinedSheets | combine.py:108-112 | one sheet per merged city, in strictly ascending city order, named `city[:31]`, holding the first row of each URL among all that city's rows, with distinct URLs |
| Combine.MergeStep | combine.py:57-67 | merging one more table is `AddTable` on the merge so far, and adds its rows to the count |
| Combine.SheetStep | combine.py:50 | reading one more sheet appends its table, if any, to those read before |
| Combine.MergeSheet | combine.py:51-67 | one sheet: an empty one changes nothing, a non-empty one is merged and counted |
| Combine.MergeWorkbook | combine.py:46-72 | one workbook: the dict and counters are those of the merge extended with its tables, up to the first sheet that raises |
| Combine.DedupStep | combine.py:80-86 | the per-city replacement de-duplicates one more city and leaves the others alone |
| Combine.DedupDone | combine.py:80-86 | after every city, the dict is the de-duplicated merge |
| Combine.DeduplicateAll | combine.py:80-86 | the in-place loop produces the de-duplicated dict |
| Combine.WriteSheets | combine.py:108-112 | the loop writes exactly the sheets that `Sheets` describes, in sorted order |
| Combine.CountRecords | combine.py:117 | `final_records` is the number of rows over all cities |
| Combine.CombineStateExcels | combine.py:14-127 | no file gives no output; files without a non-empty sheet give no output; otherwise the output path, the sheets, and the counts of sheets, records and records kept |

## Left out

- Browser automation is not modelled. Navigation, waiting, element queries, resource blocking, the warm-up visit and the scroll commands are all left out. Their results are inputs: page element texts, feed heights, and whether navigation succeeded.
- Networking is not modelled. The website fetch, its timeout and the HTTP status are an input outcome.
- The `EMAIL_REGEX` and `mailto:` scans are not modelled. Their match lists are inputs. Only the phone and coordinate patterns are matched by hand-written functions.
- Concurrency is not modelled: semaphores, `asyncio.wait` and `gather`. The batch loop is driven by an arbitrary completion order that the three-crawl window allows.
- Crawls that raise out of `scrape_city`, for example when closing the context fails, are not modelled. Every finished crawl is taken to produce a result.
- Reading and writing spreadsheets, `glob`'s directory order, `datetime.now()`, `gc.collect`, `print` and the pauses are not modelled. The directory listing and the timestamp are parameters.
- `save_progress` is modelled only as the checkpoint value a flush records. `load_progress` is never called and is not modelled.
- The commented-out distance filter of main.py is dead code and is not modelled.
- `combine_multiple_states` and the script entry points only repeat `combine_state_excels` and are not modelled.
- Text is treated as sequences of characters. Only ASCII is lower-cased and taken as letters and digits. Python's Unicode-aware `\w`, `\d`, `lower()` and `isdigit()` are not modelled for other characters.
- ListingUrl.Unquote: decodes `%XX` into the single character with that code. It does not decode UTF-8 sequences of several bytes, or replace invalid ones, as `urllib.parse.unquote` does.
- Fields.ScrapeBusinessDetails: a website link that is present but has no `href` gives `website = None` in main.py:243. The email lookup then fails and gives "NA", and the website cell is written blank. The model's `Option<string>` has no such third state and treats it as a page without a website link.
- Crawl.ScrapeCity: the iteration order of the link set is a ghost out-parameter. The contract holds for any order, but does not say which order CPython's set gives.
- Batch.RunRegion: a flushed batch in which every city has no records writes a workbook with no sheet. The spreadsheet writer raises on closing such a workbook, which ends the run before `save_progress`. The model records the flush and carries on.
- Export.NothingToExport: a dict with no city holding records gives no sheet. In main.py:387-389 that dict is `{}` when no city produced a record, and writing it raises, as above; the model only states that no sheet is written.
- Batch.RunRegion: the order and content of the flushed cities are stated only for distinct city names. With repeated names, a later result overwrites the earlier entry in the buffer, and only the flush count, numbers and checkpoints are stated.
- Combine.MergeWorkbook: the frame's column set is not modelled. A row is its cells in the scraper's column order, and `Google Maps URL` is taken to be the sixth column. A workbook that lacks the column makes `drop_duplicates` raise `KeyError`, which ends the script; that path is not modelled.
- Combine.WriteSheets: two cities whose names share their first 31 characters would both write a sheet of the same name. What the spreadsheet writer then does is not modelled.
- Combine.CombineStateExcels: an exception while opening a workbook is modelled like one on its first sheet. Such a workbook contributes nothing.
