# Congresspeople advisors crawler — a Dafny model

This project models the bookkeeping core of the Chamber of Deputies advisors
crawler (`src/fetch_deputies_advisors.py`) and the pure batching and warning
logic of the real-estate price crawler (`src/fetch_real_estate_prices.py`),
and proves properties of that model.

The advisors crawler reads the `<select id="lotacao">` options of the
transparency page to get every congressperson, sends a POST for page 1 of
each one's advisor table (the first wave), parses each response as it
arrives, and, for each page that says more pages follow, buffers requests for
the remaining pages (the second wave). The second wave is sent once the first
is drained. Every parsed page is normalised into records (rows zipped with the
CSV field names, the `-` sentinel rewritten to an empty string, a placeholder
record for a congressperson with no advisors) and appended to the output as a
header row followed by its records.

Modules, one per component:

- `Wrappers`: `Option` (stands for a raised exception), two integer helpers, and
  `Flatten` (a list of lists joined in order) with its append and concatenation lemmas.
- `AdvisorsDirectory`: congresspeople and the directory options.
- `AdvisorsRequests`: the page request builder (`get_page`).
- `AdvisorsPages`: the page parser (`extract_data_from_page` and helpers),
  with the in-place row padding as a method over an array.
- `AdvisorsPlanner`: the pagination planner and the two-wave loop of `send_requests`.
- `AdvisorsRecords`: the record normaliser (`organize_congressperson_data`).
- `AdvisorsOutput`: the CSV writer (`write_to_csv`) as a class over its rows, and the loop of `run`.
- `AdvisorsCrawler`: the whole of `run`: directory, first wave, `send_requests`, and writing.
- `RealEstatePrices`: ID extraction, batches of ten, and the over-cap warning.

Abstractions:

- XPath results are inputs. An option is the pair of lists `./text()` and
  `./@value` returned. A result page is a `PageExtract`: the integer values of
  the current-page markers, the count of pagination markers that are neither
  "next" nor "previous", the cell texts of each table row, and the selected
  options.
- A `[0]` on an empty XPath result, a missing dictionary key and `None - 1000`
  raise in the source. The model returns `None` or an explicit error case there.
- The HTTP dispatcher is abstracted. `SendRequests` takes the first-wave
  responses as a sequence in arbitrary completion order, with failed requests
  already dropped (the exception handler only prints). The second
  `grequests.imap` is a function parameter from the buffer to its responses,
  also in arbitrary order.

Points where the code behaves differently from what its names or comments suggest:

- A row of three cells is padded with the literal `"Empty"`, not with an empty
  string (line 156). Sentinel substitution only rewrites `"-"` (line 204), so the
  record keeps `act_issued_by = "Empty"` (`PaddedThreeCellRecord`). The comment
  at lines 151-153 says the missing cell is the publication date, which is the
  third column. Padding at the end therefore puts the third extracted cell into
  `act_issue_at`, and the lemma states exactly that.
- A page whose selected option is missing raises an IndexError inside the
  `send_requests` generator, and nothing catches it. The crawl therefore ends
  there. It is not reported and skipped. `SendRequests` returns the pages
  yielded up to that point, with `complete == false`.
- The second-wave requests are built from the congressperson echoed by the
  page (the selected option), not from the request that was sent (line 76).
- No invariant `1 <= current_page <= number_of_pages` is enforced. The model
  proves only what the code guarantees (`WellFormed`): at least one page, and
  `has_next_page` exactly when the current page is not the last. A current
  page beyond the last has a next page but schedules nothing.
- The placeholder record of a congressperson with no advisors is not passed
  through the substitution, so a name or number `"-"` stays `"-"` there (lines 198-200).
- `dict(zip(...))` truncates. A row of two cells gives a record without the two
  identity keys. A row of exactly five cells puts its fifth cell in
  `congressperson_name`, pushes the congressperson's name into
  `congressperson_number` and drops the number. A row of six or more cells puts
  its fifth and sixth cells in the two identity fields and drops both the name
  and the number (`AdvisorsRecords`).
  `DictWriter` writes a missing key as an empty string (`CsvRowOfZip`).

## Model

| member | source | states |
|---|---|---|
| AdvisorsDirectory.ReadOption | src/fetch_deputies_advisors.py:103-106 | an option is read exactly when both its text list and its value list are non-empty; the name is the first text, the number the first value |
| AdvisorsDirectory.CongresspeopleList | src/fetch_deputies_advisors.py:100-106 | succeeds exactly when every option is readable; then it has one congressperson per option, in order, each (first text, first value) |
| AdvisorsDirectory.FetchCongresspeopleData | src/fetch_deputies_advisors.py:94-97 | the subject list is the options in order with exactly the first dropped, so its length is max(0, n-1); it fails exactly when some option, the placeholder included, is unreadable |
| AdvisorsRequests.GetPage | src/fetch_deputies_advisors.py:109-124 | the request goes to the query URL with `lotacao` equal to the congressperson number and an offset that is a multiple of 20, non-negative exactly for pages >= 1, 0 for page 1 and 20 for page 2 |
| AdvisorsRequests.GetFirstPage | src/fetch_deputies_advisors.py:109-122 | the default page is 1, so the offset is 0 |
| AdvisorsRequests.PageOfGetPage | src/fetch_deputies_advisors.py:122 | the page is recovered from the offset: offset / 20 + 1 == page |
| AdvisorsRequests.GetPageInjective | src/fetch_deputies_advisors.py:120-124 | two requests are equal exactly when the numbers and the pages are equal; the name plays no part |
| AdvisorsRequests.GetPageMonotonic | src/fetch_deputies_advisors.py:122 | a later page has a strictly larger offset |
| AdvisorsRequests.FirstWave | src/fetch_deputies_advisors.py:42 | one request per congressperson, in directory order, each to the query URL with `lotacao` the congressperson's number and offset 0 (page 1) |
| AdvisorsPages.ExtractCurrentPage | src/fetch_deputies_advisors.py:166-173 | 1 when no current marker exists, otherwise the first marker's value |
| AdvisorsPages.ExtractNumberOfPages | src/fetch_deputies_advisors.py:176-187 | the marker count when positive, 1 when zero, so always >= 1 |
| AdvisorsPages.PadRows | src/fetch_deputies_advisors.py:151-156 | in place: every row of exactly three cells gains a trailing "Empty", every other row is unchanged |
| AdvisorsPages.PadRowProperties | src/fetch_deputies_advisors.py:154-156 | padding keeps the row's cells as a prefix, turns a 3-cell row into 4 cells ending in "Empty", leaves other lengths alone, and is idempotent |
| AdvisorsPages.ExtractDataFromPage | src/fetch_deputies_advisors.py:127-163 | the method (with its in-place padding loop) computes exactly the parsed page `ParsePage` |
| AdvisorsPages.ParsePageSpec | src/fetch_deputies_advisors.py:137-163 | parsing succeeds exactly when a selected option exists and is readable; the page then names that congressperson, carries the current page and page count extracted from the markers, is well formed (pages >= 1, and `has_next_page`, computed by `HasNextPage`, false exactly when current == total) and holds the padded rows in order |
| AdvisorsPages.SinglePageHasNoNext | src/fetch_deputies_advisors.py:162-187 | a page without pagination is page 1 of 1 and has no next page |
| AdvisorsPlanner.PagesFor | src/fetch_deputies_advisors.py:72-76 | a page schedules (if it has a next page) max(0, total - current) requests and none otherwise |
| AdvisorsPlanner.PagesForSpec | src/fetch_deputies_advisors.py:72-76 | for a well-formed page, the k-th scheduled request is for the same congressperson number and page current+1+k, and there are max(0, total - current) of them |
| AdvisorsPlanner.PagesForAscending | src/fetch_deputies_advisors.py:75-76 | the scheduled requests are in strictly ascending offset order |
| AdvisorsPlanner.PagesForMembership | src/fetch_deputies_advisors.py:72-76 | the request for page p is scheduled exactly when the page has a next page and current < p <= total |
| AdvisorsPlanner.SecondWaveSnoc | src/fetch_deputies_advisors.py:72-76 | a newly arrived page appends its requests after the buffer's earlier contents, which are untouched |
| AdvisorsPlanner.SecondWaveConcat | src/fetch_deputies_advisors.py:66-76 | the buffer after two runs of arrivals is the first run's buffer followed by the second's |
| AdvisorsPlanner.NoNextPageNoSecondWave | src/fetch_deputies_advisors.py:72 | pages without a next page (1-of-1 pages among them) add nothing to the buffer |
| AdvisorsPlanner.SecondWaveLength | src/fetch_deputies_advisors.py:72-78 | the pending count is the sum over the pages of the pages each schedules |
| AdvisorsPlanner.SecondWaveMembership | src/fetch_deputies_advisors.py:66-76 | a request is in the buffer exactly when some first-wave page with a next page asked for it: same congressperson, a page after its current one and no later than its last |
| AdvisorsPlanner.SecondWaveArrivalOrder | src/fetch_deputies_advisors.py:66-76 | any reordering of the first-wave arrivals yields the same multiset of second-wave requests |
| AdvisorsPlanner.AppendNextPages | src/fetch_deputies_advisors.py:73-76 | the `range(current + 1, total + 1)` loop appends exactly the page's scheduled requests, in order, after the old buffer |
| AdvisorsPlanner.DrainFirstWave | src/fetch_deputies_advisors.py:66-76 | the first-wave loop yields the parsed responses in arrival order up to the first that fails to parse, completes exactly when all parse, and leaves in the buffer exactly the second-wave requests of the pages it yielded |
| AdvisorsPlanner.DrainWave | src/fetch_deputies_advisors.py:80-83 | the second-wave loop yields the parsed responses in arrival order up to the first that fails to parse, and completes exactly when all parse |
| AdvisorsPlanner.SendRequests | src/fetch_deputies_advisors.py:56-83 | the buffer holds the second-wave requests of the parsed first-wave pages; the stream is the first-wave pages, then (when all parsed) the pages parsed from the dispatched buffer; a parse failure ends the stream |
| AdvisorsRecords.ZipSpec | src/fetch_deputies_advisors.py:200-205 | with distinct keys, `dict(zip(keys, values))` has exactly the first min(len) keys, the i-th mapped to the i-th value |
| AdvisorsRecords.ZipFieldNames | src/fetch_deputies_advisors.py:22-29 | six values zipped with FIELDNAMES give the record with those six named fields |
| AdvisorsRecords.CleanedSpec | src/fetch_deputies_advisors.py:204 | every "-" becomes "", every other value is unchanged, no "-" remains, and substitution is idempotent |
| AdvisorsRecords.OrganizeCongresspersonData | src/fetch_deputies_advisors.py:190-205 | one record per advisor, or exactly one record when there are none |
| AdvisorsRecords.NoAdvisorsPlaceholder | src/fetch_deputies_advisors.py:198-200 | with no advisors the only record is ('', '', '', '', name, number), the identity left unsubstituted |
| AdvisorsRecords.AdvisorsRecords | src/fetch_deputies_advisors.py:201-205 | the k-th record belongs to the k-th advisor; its keys are the first min(6, cells + 2) field names and each holds the cleaned k-th value of the cells followed by name and number |
| AdvisorsRecords.FourCellRecord | src/fetch_deputies_advisors.py:201-205 | a four-cell row gives all six fields: its cells, then name and number, each cleaned |
| AdvisorsRecords.PaddedThreeCellRecord | src/fetch_deputies_advisors.py:154-205 | a padded three-cell row keeps act_issued_by = "Empty", with its third cell in act_issue_at |
| AdvisorsOutput.CsvRowOfZip | src/fetch_deputies_advisors.py:220-226 | the CSV row of a zipped record is its values truncated or filled with "" to the six columns, in column order |
| AdvisorsOutput.PageRowsLength | src/fetch_deputies_advisors.py:223-226 | each written page is a header row followed by max(1, advisors) record rows |
| AdvisorsOutput.StreamRowsConcat | src/fetch_deputies_advisors.py:43-51 | output for two streams is the first's output followed by the second's: no deduplication |
| AdvisorsOutput.OutputFile.constructor | src/fetch_deputies_advisors.py:220 | opening for append keeps what the file already holds |
| AdvisorsOutput.OutputFile.WriteToCsv | src/fetch_deputies_advisors.py:214-226 | appends a header row then one row per record, in order, after the old rows |
| AdvisorsOutput.Run | src/fetch_deputies_advisors.py:43-51 | the output gains, for each page of the stream in order, its header and normalised records |
| AdvisorsCrawler.RunCrawl | src/fetch_deputies_advisors.py:37-51 | an unreadable directory option stops the crawl before anything is written; otherwise the output gains, in order, the rows of the parsed pages answering page 1 of every congressperson, then (when all of those parsed) of the parsed pages answering the buffered second wave; it completes exactly when both waves parse throughout |
| RealEstatePrices.AllIds | src/fetch_real_estate_prices.py:67 | succeeds exactly when every estate has an ID; then the IDs follow the estates' order |
| RealEstatePrices.SplitIds | src/fetch_real_estate_prices.py:68-71 | every batch starts inside the list, is non-empty and holds at most 10 IDs, every batch but the last holds exactly 10, and batch k is IDs 10k up to 10k+10 |
| RealEstatePrices.SplitIdsCount | src/fetch_real_estate_prices.py:69-71 | the number of batches is ceil(total / 10): zero exactly for no IDs |
| RealEstatePrices.FlattenPrefix | src/fetch_real_estate_prices.py:70-71 | the first m batches joined are the first min(10m, total) IDs |
| RealEstatePrices.SplitIdsFlatten | src/fetch_real_estate_prices.py:67-71 | the batches joined give back the full ID list, in order |
| RealEstatePrices.DetailBatchesSpec | src/fetch_real_estate_prices.py:65-71 | when every estate has an ID, the joined batches are the estates' IDs in estate order |
| RealEstatePrices.NotFetchedAmount | src/fetch_real_estate_prices.py:90-96 | silent for an absent or empty result; otherwise a warning exactly when the count exceeds 1000, reporting count - 1000, and a type error when the count is missing or not a number |

## Left out

- HTTP transport (`requests.get`, `grequests.post`, `grequests.imap`, `requests.post`) and `json.loads`: network I/O and foreign libraries. Responses are inputs.
- The concurrency of `grequests.imap(size=8)` and of the thread pools: arrival order is an arbitrary input sequence.
- lxml parsing and XPath evaluation: their results are inputs.
- `int(...)` of the current-marker text: the markers are given as integers.
- `http_exception_handler`, progress dots, the pending-count message and every `print`: output only. A failed request appears as a response that is absent from the input.
- lzma compression, the CSV quoting and the dated output file name: file I/O. The file is a sequence of rows.
- The interleaving of writing and planning in `run`. The source writes each page as it is yielded, before buffering its next pages. `RunCrawl` calls `SendRequests` and then `Run`: the rows written are the same, but the model does not capture the order in which writing a page and buffering its next pages interleave.
- `USERAGENT` is defined but never sent, so it is not modelled.
- FetchCongresspeopleData: does not model the generator's laziness. In the source, requests for the options before an unreadable one may already have been sent before the error is raised; the model fails the whole list.
- RunCrawl: with an unreadable directory option the model writes nothing. In the source, pages for the options before it may already have been fetched and written before the error is raised.
- `slice_quadrants` (floating-point `np.arange` stepping), the geocoder in `get_quadrants`, `fetch_real_estates_from_quadrants`, `fetch_real_estates`, `fetch_result` and the pandas join, drop and rename in `main`: floating point, network I/O, thread pools and DataFrame semantics.
- `print_fetched_amount`: progress formatting only.
- NotFetchedAmount: a JSON count is modelled as an integer. Floating-point counts and booleans (which Python subtracts as 0 or 1) are treated as non-numbers.
- The taxi/Uber analysis notebook under `deliver/`: pandas filtering, float sums and group-by.
