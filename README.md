# Document library front end: verified model of its list, link and reminder logic

This project is a Dafny model of the logic inside a React front end. Insurance agents use the front end to
browse a product and company catalogue, open company documents, and manage reminder mails for fund issues.
Almost all of the application is view code. The model covers the four pieces of sequential logic in it:

- **Catalogue table** (`src/ProductTable.jsx`, module `ProductTable`).
  - The product filter: a case-insensitive search over name and code, AND four exact-match filters.
  - The company filter: search text only.
  - JavaScript `slice` pagination.
  - The table's view state (tab, page, rows per page), as the class `ProductTableView`. Its handlers move back
    to the first page.
- **Company document links** (`src/CompanyPopup.jsx`, module `CompanyPopup`).
  - The file-name and URL rewriting: the first `:` of the company code becomes `_`, and every `%` becomes a space.
  - The `v`/`V` spellings of six-digit version markers.
  - The choice of primary and fallback URL, and the probe-then-open sequence of `handlePdfClick`, as a method.
  - The localised name/description lookup and the PDF-only document list.
- **Reminder rows** (`src/FundTable.jsx`, module `FundTable`).
  - Date normalisation, and the pairing of each issue with an email-date entry by position.
  - The day offset on whole day numbers, and the enabled, shading, bold and sent rules.
- **Mail selection and saved inputs** (`src/App.jsx`, module `App`).
  - The checkbox update of the list of funds selected for mail, used as a set.
  - The merge of saved plan inputs over the defaults.

Helper modules: `Wrappers` (`Option`), `Lists` (`Array.prototype.filter` and the order-preserving subsequence
relation, with their lemmas) and `Strings` (ASCII `toLowerCase`, `includes`, `endsWith`, and single-character
`replace` in its first-match and global forms).

Parameters stand for what the model cannot see:
- `fetch: string -> FetchOutcome` is the document store as seen by a probe.
- `parseDay: string -> Option<int>` is the browser's date parse followed by `setHours(0, 0, 0, 0)`, as a day number.
- `today` is today's day number.

Three points about the behaviour of the code, which the model follows:
- The catalogue filter has no priority reordering and no region or hot-flag criteria. It filters on exactly the
  five criteria modelled.
- The primary URL is the upper-case one exactly when the normalised name contains a capital `V` followed by six
  digits. A name that mixes both spellings therefore gets the upper-case URL first.
- An enabled row whose email date does not parse has a NaN day offset. Its background is white, because
  `NaN < 0` is false. So "white exactly when enabled and the offset is non-negative" holds only for rows whose
  date parses.

## Model

| member | source | states |
|---|---|---|
| ProductTable.FilterProducts | src/ProductTable.jsx:102-123 | the filtered products are an order-preserving subsequence of the products, and a product is listed exactly when it matches the search and all four exact-match filters |
| ProductTable.FieldMatchesOccurrence | src/ProductTable.jsx:106-107 | a field matches exactly when it is present and the lower-cased search text occurs in the lower-cased field; a missing field never matches |
| ProductTable.SearchMatchesOccurrence | src/ProductTable.jsx:105-107 | the search matches a product exactly when the search text is empty or occurs, ignoring case, in its name or its code |
| ProductTable.NoCriteriaKeepsAllProducts | src/ProductTable.jsx:105-119 | with all five criteria empty the filtered products are the products |
| ProductTable.FilterProductsCount | src/ProductTable.jsx:102-123 | a matching product is kept as many times as it occurs in the products, and a non-matching one not at all |
| ProductTable.FilterProductsIdempotent | src/ProductTable.jsx:102-123 | filtering the filtered products again with the same criteria gives the same list |
| ProductTable.FilterCompanies | src/ProductTable.jsx:126-135 | the filtered companies are an order-preserving subsequence, holding exactly the companies whose name, code or region matches the search |
| ProductTable.FilterCompaniesCount | src/ProductTable.jsx:126-135 | a matching company is kept as many times as it occurs in the companies, and a non-matching one not at all |
| ProductTable.FilterCompaniesIdempotent | src/ProductTable.jsx:126-135 | filtering the filtered companies again with the same search gives the same list |
| ProductTable.CurrentData | src/ProductTable.jsx:143 | on tab 0 the list is the filtered products in their order, on any other tab the filtered companies in their order |
| ProductTable.CompanyTabIgnoresProductFilters | src/ProductTable.jsx:126-143 | on the companies tab, criteria that agree on the search text give the same list |
| ProductTable.Slice | src/ProductTable.jsx:146-149 | `slice` clamps both bounds to the length and gives an empty list for an empty or out-of-range window |
| ProductTable.Page | src/ProductTable.jsx:146-149 | the slice is page `page` of the list (`IsPageOf`): a page has at most `n` rows, is empty when `page*n` is past the end, otherwise has `min(n, len - page*n)` rows, and its row `k` is row `page*n + k` |
| ProductTable.PageSegment | src/ProductTable.jsx:146-149 | page `k` is the segment of the list from `k*n` to `k*n + n`, both clamped to the length |
| ProductTable.PagesArePrefix | src/ProductTable.jsx:146-149 | pages `0 .. count-1` concatenated are the first `count*n` rows of the list |
| ProductTable.PageCount | src/ProductTable.jsx:307-316 | the offered number of pages covers every row, and its last page is not empty |
| ProductTable.PagesRebuildList | src/ProductTable.jsx:146-149 | all pages concatenated in order rebuild the list exactly, and every page but the last is full |
| ProductTable.ProductTableView.Paginated | src/ProductTable.jsx:146-149 | the shown rows are page `page` of the current list (`IsPageOf`): at most `rowsPerPage` rows, none once `page*rowsPerPage` is past the end, otherwise `min(rowsPerPage, len - page*rowsPerPage)` rows, row `k` being row `page*rowsPerPage + k` of the current list |
| ProductTable.ProductTableView.PagesCoverCurrent | src/ProductTable.jsx:146-149 | with one of the offered page sizes (`Valid`), the pages the control offers, shown one after another, are exactly the current list, and every page but the last is full |
| ProductTable.ProductTableView.constructor | src/ProductTable.jsx:30-34 | a new table is on the products tab, first page, ten rows per page, with nothing loaded |
| ProductTable.ProductTableView.ProductsLoaded | src/ProductTable.jsx:45 | loading stores `data.list`, or an empty list when it is absent; the page is not reset |
| ProductTable.ProductTableView.CompaniesLoaded | src/ProductTable.jsx:57 | loading stores `data.list`, or an empty list when it is absent; the page is not reset |
| ProductTable.ProductTableView.ChangePage | src/ProductTable.jsx:64-66 | changing page changes only the page |
| ProductTable.ProductTableView.ChangeRowsPerPage | src/ProductTable.jsx:68-71 | a new page size resets the page to 0, so the first rows of the current list are shown |
| ProductTable.ProductTableView.TabChange | src/ProductTable.jsx:73-79 | switching tab sets the tab and resets the page to 0; the first rows of the new tab's list are shown |
| ProductTable.ProductTableView.CriteriaChanged | src/ProductTable.jsx:137-140 | new criteria reset the page to 0 exactly when any of the five values changed, and then the first rows of the new list are shown; every handler keeps the page size one of 5, 10, 25, 50 |
| CompanyPopup.FilePrefixFirstColon | src/CompanyPopup.jsx:86 | the first colon of the company code becomes `_`, and everything before and after it, including later colons, is kept |
| CompanyPopup.FilePrefixNoColon | src/CompanyPopup.jsx:86 | a company code without a colon is used unchanged |
| CompanyPopup.NormalizeFileName | src/CompanyPopup.jsx:90 | every `%` becomes a space, every other character is kept, the length is kept, and no `%` remains |
| CompanyPopup.SetMarkers | src/CompanyPopup.jsx:94-97 | the global marker replacement keeps the length and changes exactly the `v`/`V` letters that start a six-digit marker, to the given letter |
| CompanyPopup.HasUpperMarker | src/CompanyPopup.jsx:124 | the case-sensitive test holds exactly when some capital `V` is followed by six digits |
| CompanyPopup.UrlsDifferOnlyAtMarkers | src/CompanyPopup.jsx:99-100 | both URLs are `baseUrl/prefix_` followed by a variant, have the same length, and differ exactly at the version-marker letters of the normalised name |
| CompanyPopup.PrimaryKeepsFileNameSpelling | src/CompanyPopup.jsx:119-127 | when all markers of the normalised name use one letter case, the primary URL spells the name as given |
| CompanyPopup.NoMarkerSingleUrl | src/CompanyPopup.jsx:92-127 | a name without a version marker yields one URL, which is both primary and fallback |
| CompanyPopup.CandidatesAreTheTwoVariants | src/CompanyPopup.jsx:119-127 | primary and fallback are the two variants, one each; the primary is the upper-case URL exactly when the name has a capital-V marker (or both variants coincide) |
| CompanyPopup.CheckUrlExists | src/CompanyPopup.jsx:107-117 | a URL counts as existing exactly when the request returned a response with `ok` set; a thrown request counts as missing |
| CompanyPopup.HandlePdfClick | src/CompanyPopup.jsx:83-152 | the primary is probed first and the fallback only after it fails; the URL opened is the primary if it exists, else the fallback if it exists, else the primary; it is always one of the two variants, and it exists whenever a probed URL existed |
| CompanyPopup.LanguageKey | src/CompanyPopup.jsx:158-164 | `en` and any unknown language give `enUS`; `zh-HK` gives `zhHantHK` and `zh-CN` gives `zhHansCN`, and only they do |
| CompanyPopup.Localized | src/CompanyPopup.jsx:155-180 | an absent i18n record gives the default; otherwise the entry for the language's key, or the default when that entry is missing or empty; the result is empty only if the default is |
| CompanyPopup.PdfFiles | src/CompanyPopup.jsx:403-404 | the listed documents are an order-preserving subsequence of the files, holding exactly those with a non-empty name ending in `.pdf` in any case, each PDF as many times as it occurs among the files |
| CompanyPopup.PdfSuffixIgnoresCase | src/CompanyPopup.jsx:404 | a name is listed exactly when it ends in `.` followed by `p`, `d`, `f` in either letter case |
| FundTable.NormalizeDate | src/FundTable.jsx:27-30 | an absent or empty date gives the `na` label; otherwise every `-` becomes `/`, other characters and the length are kept, and no `-` remains |
| FundTable.NormalizeDateIdempotent | src/FundTable.jsx:27-30 | normalising a normalised date changes nothing |
| FundTable.EntryFor | src/FundTable.jsx:73 | row `i` gets `emailDates[i]` exactly when the list is present and `i` is below its length, and no entry otherwise |
| FundTable.DayOffset | src/FundTable.jsx:76-82 | the offset is the email date's day number minus today's: 0 for today, -1 for yesterday, positive exactly for future dates; a number whenever the date parses, NaN when it does not |
| FundTable.ComputeRow | src/FundTable.jsx:72-103 | a row is enabled exactly when it has an enabled entry; without an entry it has no offset and shows `na`, `noEmailDateSet`, `na`; it is white exactly when enabled and not negatively offset, bold exactly when the offset is 0; with an entry, the day column shows the offset as a number, or the NaN text when the date does not parse; the sent column shows yes/no from `isSent` |
| FundTable.Rows | src/FundTable.jsx:72-105 | there is one row per issue, and row `i` is computed from issue `i` and the entry aligned with index `i` |
| FundTable.RowsWithoutEntry | src/FundTable.jsx:73-102 | rows past the end of the email-date list, or all rows without a list, are disabled, grey, not bold, and show `na`/`noEmailDateSet`/`na` |
| FundTable.RowDueToday | src/FundTable.jsx:76-102 | a row whose email date is today is bold, shows 0, and is white exactly when its reminder is enabled |
| FundTable.RowPastDue | src/FundTable.jsx:88-94 | a row whose email date has passed is grey, not bold, and shows a negative count |
| App.UpdateSelection | src/App.jsx:160-168 | checking a listed fund changes nothing, and checking an unlisted one appends it at the end; unchecking keeps an order-preserving subsequence without any occurrence of the name and with every other name, each as many times as before |
| App.UpdateSetsCheckbox | src/App.jsx:160-168 | after an update the fund's checkbox (membership, as at line 302) shows the chosen state, and every other fund's checkbox is unchanged |
| App.UpdateIdempotent | src/App.jsx:162-165 | checking twice is checking once, and unchecking twice is unchecking once |
| App.UncheckAbsentUnchanged | src/App.jsx:165 | unchecking a fund that is not listed leaves the list unchanged |
| App.UpdateKeepsNoDuplicates | src/App.jsx:160-168 | a list without duplicates stays without duplicates after any update |
| App.InitialInputs | src/App.jsx:113-131 | with nothing saved the inputs are the defaults; otherwise their keys are the union, every saved value wins, and every default key not saved keeps its default |
| App.InitialInputsCoverDefaults | src/App.jsx:115-130 | every default key, including the inflation rate and number of years, is present in the initial inputs |

Some definitions have no row of their own, because the rows of the lemmas named here specify them:
- `ProductTable.ProductMatches` and `CompanyMatches`: `FilterProducts`, `FilterCompanies` and `SearchMatchesOccurrence`.
- `CompanyPopup.FilePrefix`: `FilePrefixFirstColon` and `FilePrefixNoColon`.
- `LowercaseUrl` and `UppercaseUrl`: `UrlsDifferOnlyAtMarkers`.
- `PrimaryUrl` and `FallbackUrl`: `CandidatesAreTheTwoVariants`, `PrimaryKeepsFileNameSpelling` and `NoMarkerSingleUrl`.
- `IsPdf`: `PdfSuffixIgnoresCase`.
- `FundTable.OffsetCell`: `ComputeRow`.
- `App.IsChecked`: `UpdateSetsCheckbox`.

## Left out

- JSX rendering, MUI layout and styling, and `t(...)` string lookup. These are view code. Translated labels are
  the constructors of `FundTable.Cell`.
- Network and asset loading. This covers the catalogue `fetch` calls and their JSON parsing, the
  `import.meta.glob` company detail loading with its `loading`/`error`/`companyData` state, the `/getData` call
  and its 300 ms debounce, and `window.open`. These are I/O. Loaded lists arrive as method arguments, probe
  results come from the `fetch` parameter, and the opened URL is returned.
- The `onTabChange` callback of `handleTabChange`. It calls into the parent component.
- The one render that shows new criteria with the old page before the reset effect runs. It is React scheduling;
  the model applies criteria and reset in one step.
- Row-click and popup open/close state in the catalogue table. It only selects which dialog to show.
- `processData` and the cash values. They are floating-point accumulation.
- `handleInflationRateChange` and `handleCurrencyRateChange`. They are single-key record updates outside the
  modelled initialiser.
- `localStorage` reads and writes. They are browser persistence. A stored string that is not a JSON object is not
  modelled: `InitialInputs` receives the parsed record, or `None` for a missing or empty string.
- Date parsing and time zones. `new Date("YYYY-MM-DD")` reads a date-only string as UTC midnight, and
  `setHours` then works in local time. So west of UTC the parsed day is the previous day. In addition,
  `Math.ceil` counts one day too many when the millisecond difference spans a 25-hour day before a future date,
  or a 23-hour day before a past date. So yesterday seen across a spring-forward shows 0, and the row is bold. The
  model works with the day numbers `parseDay` yields, so neither effect is represented.
- Unicode case mapping. `toLowerCase` is modelled on ASCII letters only.
- Localized: a language code that names an inherited `Object.prototype` property (such as `constructor`) makes
  the source look up a non-string key and fall back to the default. The model treats it as an unknown language
  and uses `enUS`.
- Localized: non-string i18n values and falsy values other than the empty string are not modelled. Entries are
  strings.
- `null` elements inside the email-date list, and an entry without a `date`, are not modelled. Every entry has a
  date string.
- Product fields the logic never reads (region, hot flag) are not part of `ProductTable.Product`.
