# covid-19-nepal-data scrapers, modelled in Dafny

The scrapers of covid-19-nepal-data turn two sources of Nepal's COVID-19
figures into rows appended to CSV files:

- the Ministry of Health and Population (MOHP) `confirmedcases` answer, whose
  `nepal` object is projected onto an overview row (11 columns) and a testing
  row (9 columns);
- the Kathmandu Post COVID-19 page, whose nationwide totals (five positional
  spans) become one overview row, and whose embedded district data (a JSON
  blob inside an inline script) is reconciled against the reference lists of
  districts and provinces, date-stamped, sorted, and written both to an
  aggregate file and to one file per district.

The model covers that pipeline. Each file corresponds to one source file or to
one library behaviour the scrapers rely on:

| Dafny file | models |
|---|---|
| `text.dfy` (`Text`) | the string operations used: ASCII `_.toLower`, `split` on one character, `join`, `replace(/x/g, …)`, the last path segment |
| `csv.dfy` (`Csv`) | json2csv's `parse` with an ordered field list, `header: false`, `quote: ''` |
| `sort_by.dfy` (`SortBy`) | lodash's `_.sortBy` on two properties: `compareMultiple` with the index tie-break |
| `utils.dfy` (`Utils`) | `scrapers/utils/utils.js`: `getCurrDate`, `addDate`, `appendToCsv` over an in-memory file store |
| `district_csv.dfy` (`DistrictCsv`) | `scrapers/kathmandu-post/district-csv.js` |
| `overview_csv.dfy` (`OverviewCsv`) | `scrapers/kathmandu-post/overview-csv.js` |
| `district_pattern.dfy` (`DistrictPattern`) | the marker test and the regular expression of `parseDistrictData` |
| `kathmandu_post.dfy` (`KathmanduPost`) | `scrapers/kathmandu-post/index.js` after the page is fetched and parsed |
| `mohp.dfy` (`Mohp`) | `scrapers/mohp/index.js` after the answer is fetched |

Objects that the source mutates in place (`addDate`, `addDistrictProvince`)
are instances of the class `Utils.JsObject`, whose `fields` map is the
object's properties (an absent key is `undefined`). The file system is the
class `Utils.FileStore`: file contents by path, the log lines written, and the
set of paths whose append the operating system refuses. The wall clock is the
parameter `now`, the text `new Date().toISOString()` would return. The
reference lists `metadata/districts.json` and `metadata/provinces.json` are
parameters, and so is `JSON.parse` (as `decode`).

Where the documentation and the code disagree, the model follows the code:

- The sort keys at district-csv.js:59 put `province_number` first, but no
  record ever has that property: reconciliation writes only the province
  *name* (district-csv.js:81). Every record therefore compares by `name`
  alone, stable among equal names, and the province number plays no part in
  the order (`DistrictCsv.NormalizeAllSortedByName`,
  `DistrictCsv.ProvinceNumberIgnoredExample`).
- The doc comments of `overview-csv.js` list a `Deaths` column and show a row
  with it. The field list has no `deaths`, so the Kathmandu Post overview row
  has five columns (`OverviewCsv.OverviewDropsDeaths`,
  `OverviewCsv.OverviewExample`).
- A district whose province is missing from the province list is not a
  precondition: `province.name` throws after `name` has been overwritten,
  and the model returns that outcome (`DistrictCsv.Reconciliation.Thrown`).

## Model

| member | source | states |
|---|---|---|
| Utils.CurrDate | scrapers/utils/utils.js:28-31 | the date is the prefix of the timestamp before its first `T` (the whole text when there is none) |
| Utils.CurrDateOfIsoTimestamp | scrapers/utils/utils.js:28-31 | for a `toISOString` timestamp the date is its first ten characters, `YYYY-MM-DD` |
| Utils.AddDate | scrapers/utils/utils.js:41-46 | sets `date` on the same object and returns that object; the new properties are the old ones with `date` set |
| Utils.StampKeepsOtherFields | scrapers/utils/utils.js:41-46 | stamping changes no property other than `date` |
| Utils.FileStore.AppendToCsv | scrapers/utils/utils.js:12-21 | succeeds exactly when the path is writable; the file then gets the text and one newline at its end and the log names the file by its last path segment; otherwise the files are unchanged and the error line is logged |
| Utils.AppendKeepsExistingContent | scrapers/utils/utils.js:13 | an append keeps the file's content as its prefix and adds exactly the text and one `\n` |
| Utils.AppendTwiceDuplicates | scrapers/utils/utils.js:13 | appending the same text twice leaves two identical trailing lines (no deduplication) |
| Utils.AppliedAllOtherPaths | scrapers/utils/utils.js:13 | appends to other paths leave a file unchanged |
| Utils.AppliedAllConcat | scrapers/utils/utils.js:12-13 | a sequence of appends is the first part followed by the rest |
| Text.LastSegment | scrapers/utils/utils.js:18 | the logged name has no `/`, ends the path, and is preceded by `/` when shorter than the path |
| Text.LastSegmentIsLastPiece | scrapers/utils/utils.js:18 | it equals the last piece of `filepath.split('/')` |
| Text.LastSegmentOfJoinedPath | scrapers/utils/utils.js:18 | a directory ending in `/` joined with a `/`-free name logs that name |
| Text.SplitHead | scrapers/utils/utils.js:29 | the first piece of a split is the longest separator-free prefix and is followed by the separator |
| Text.SplitJoin | scrapers/kathmandu-post/district-csv.js:115 | splitting a join of separator-free cells gives back the cells |
| Text.JoinSplit | scrapers/kathmandu-post/district-csv.js:115 | joining the pieces of a split gives back the text |
| Text.SplitJoinPrefix | scrapers/kathmandu-post/district-csv.js:115 | a joined row has at least one piece per cell, and separator-free leading cells come back as their own pieces |
| Text.Lower | scrapers/kathmandu-post/district-csv.js:74-75 | every upper-case letter becomes its lower-case letter (code point plus 32) and every other character is kept, at the same position |
| Text.LowerEqualIff | scrapers/kathmandu-post/district-csv.js:74-75 | two texts lower-case to the same text exactly when they are equal ignoring case, character by character |
| Text.ReplaceAll | scrapers/kathmandu-post/district-csv.js:118 | each occurrence of the character becomes the replacement and every other character is kept, at the same position |
| Text.Split | scrapers/kathmandu-post/district-csv.js:115 | a split always has at least one piece (`"".split(",")` is `[""]`) |
| Text.SplitPieces | scrapers/kathmandu-post/district-csv.js:115 | a split has one piece more than there are separators, and no piece holds the separator |
| Text.Join | scrapers/kathmandu-post/district-csv.js:41-45 | the joined text is at least as long as the first cell plus one separator per further cell |
| Text.JoinSeparatorCount | scrapers/kathmandu-post/district-csv.js:41-45 | a join holds at least one separator between each two cells, and exactly `cells - 1` when no cell holds one |
| Text.Remove | scrapers/kathmandu-post/district-csv.js:115 | removing `"` leaves no `"` and keeps every other character as often as it occurs |
| Text.RemoveConcat | scrapers/kathmandu-post/district-csv.js:115 | removing distributes over concatenation, so the kept characters stay in order |
| Text.RemoveAbsent | scrapers/kathmandu-post/district-csv.js:115 | a text without `"` is left unchanged |
| Csv.Row | scrapers/kathmandu-post/district-csv.js:41-45 | one line per record with a comma between each two listed fields, and exactly one per boundary when no value holds a comma |
| Csv.Rows | scrapers/kathmandu-post/district-csv.js:41-45 | a newline between each two rows, and exactly one per boundary when no row holds a newline |
| Csv.RowColumns | scrapers/kathmandu-post/district-csv.js:41-45 | a row splits back into one cell per listed field, in order, each the field's value or empty |
| Csv.RowAddsNoQuotes | scrapers/kathmandu-post/district-csv.js:41-45 | with `quote: ''` a row holds a `"` only when a value does |
| Csv.RowReadsOnlyColumns | scrapers/kathmandu-post/district-csv.js:41-45 | properties outside the field list do not affect the row |
| Csv.RowsLines | scrapers/kathmandu-post/district-csv.js:41-45 | several records give one line per record, in order, with no header line |
| SortBy.StrLess | scrapers/kathmandu-post/district-csv.js:59 | JavaScript's `<` on strings is strict, and a proper prefix comes before the longer string |
| SortBy.ValueBefore | scrapers/kathmandu-post/district-csv.js:59 | lodash's `compareAscending`: strict, only a defined value comes first, and every defined value comes before `undefined` |
| SortBy.Before | scrapers/kathmandu-post/district-csv.js:59 | lodash's `compareMultiple`: strict, and records with equal property values are ordered by position |
| SortBy.BeforeTransitive | scrapers/kathmandu-post/district-csv.js:59 | lodash's comparison (`undefined` after defined values, then `<`, then the index) is transitive |
| SortBy.BeforeTotal | scrapers/kathmandu-post/district-csv.js:59 | and total on distinct criteria |
| SortBy.SortCriteria | scrapers/kathmandu-post/district-csv.js:59 | the sorted criteria are a permutation of the input, in strictly ascending order |
| SortBy.SortedUnique | scrapers/kathmandu-post/district-csv.js:59 | there is only one such arrangement, whatever sorting algorithm the engine uses |
| DistrictCsv.Reconcile | scrapers/kathmandu-post/district-csv.js:70-88 | only `name` and `province` change; an unmatched record is returned unchanged; a throw happens only for a matched district whose province is missing, after its canonical name was written |
| DistrictCsv.FirstMatch | scrapers/kathmandu-post/district-csv.js:72-76 | the first reference district, in list order, whose name or alternate name equals the label ignoring case; none when no district matches |
| DistrictCsv.FindProvince | scrapers/kathmandu-post/district-csv.js:77-79 | the first province with the district's number; none exactly when no province has it |
| DistrictCsv.AddDistrictProvince | scrapers/kathmandu-post/district-csv.js:70-88 | the loop stops at the first match; the object ends as the reconciliation says, and `ok` is false exactly when `province.name` throws |
| DistrictCsv.ReconcileKnownLabel | scrapers/kathmandu-post/district-csv.js:72-82 | a label matched first by district i gets i's canonical name and its province's name |
| DistrictCsv.ReconcileAnySpelling | scrapers/kathmandu-post/district-csv.js:73-81 | any spelling among a district's name and alternate names, in any case, resolves to that district |
| DistrictCsv.ReconcileUnknownLabel | scrapers/kathmandu-post/district-csv.js:72-86 | an unknown label leaves the record unchanged, without error |
| DistrictCsv.ReconcileIgnoresCase | scrapers/kathmandu-post/district-csv.js:74-75 | labels equal up to case get the same district, name and province |
| DistrictCsv.ReconcileWritesOnlyNameAndProvince | scrapers/kathmandu-post/district-csv.js:80-81 | reconciliation changes no property but `name` and `province` |
| DistrictCsv.ReconcileNeverThrows | scrapers/kathmandu-post/district-csv.js:77-81 | when every district's province exists, reconciliation never throws |
| DistrictCsv.FirstThrown | scrapers/kathmandu-post/district-csv.js:58 | the first record whose reconciliation throws; none exactly when no record throws |
| DistrictCsv.CriteriaOf | scrapers/kathmandu-post/district-csv.js:59 | the sort keys of a record: `province_number`, then `name`, each `undefined` when absent, then its position |
| DistrictCsv.SortOrder | scrapers/kathmandu-post/district-csv.js:59 | the output positions take distinct input positions, in lodash's (`province_number`, `name`, index) order |
| DistrictCsv.NormalizeAll | scrapers/kathmandu-post/district-csv.js:55-61 | fails exactly when some reconciliation throws; otherwise one record per input, every one stamped with the run's date |
| DistrictCsv.NormalizeAllIsPermutation | scrapers/kathmandu-post/district-csv.js:57-59 | one output record per input record, each the reconciled and stamped form of a distinct input record, all with the same date |
| DistrictCsv.NormalizeAllFailsIff | scrapers/kathmandu-post/district-csv.js:58 | normalisation fails exactly when some record's reconciliation throws |
| DistrictCsv.NormalizedKeepsProvinceNumber | scrapers/kathmandu-post/district-csv.js:58-59 | normalisation never writes `province_number` |
| DistrictCsv.BeforeWithoutProvinceNumber | scrapers/kathmandu-post/district-csv.js:59 | without `province_number` two records compare by name, then input position |
| DistrictCsv.NormalizeAllSortedByName | scrapers/kathmandu-post/district-csv.js:59 | the output is in ascending name order (records without a name last) |
| DistrictCsv.NormalizeAllStable | scrapers/kathmandu-post/district-csv.js:59 | records with equal names keep their input order |
| DistrictCsv.TwoRecordsByName | scrapers/kathmandu-post/district-csv.js:59 | of two records, the one whose name sorts first is written first |
| DistrictCsv.ProvinceNumberIgnoredExample | scrapers/kathmandu-post/district-csv.js:59 | Bara (province 2) is written before Bhojpur (province 1), with alternate-case labels reconciled to canonical names |
| DistrictCsv.ExampleReconciles | scrapers/kathmandu-post/district-csv.js:72-81 | `bhojpur` and `BARA` reconcile to `Bhojpur`/`Province 1` and `Bara`/`Province 2` |
| DistrictCsv.NormalizeJson | scrapers/kathmandu-post/district-csv.js:55-61 | every record reconciled, then every record stamped, in place; the result lists the same objects in sort order and equals the pure pipeline; on a throw, records up to the thrower are reconciled and the rest untouched |
| DistrictCsv.AddDistrictProvinces | scrapers/kathmandu-post/district-csv.js:58 | `.map(addDistrictProvince)` updates the records in order; `ok` is false exactly when some record throws, and then the records up to the first thrower are reconciled and the rest untouched |
| DistrictCsv.AddDates | scrapers/kathmandu-post/district-csv.js:58 | `.map(addDate)` stamps every record in place with the same date and changes nothing else |
| DistrictCsv.DistrictRowPieces | scrapers/kathmandu-post/district-csv.js:115 | a district row always has a third comma-separated field |
| DistrictCsv.Slug | scrapers/kathmandu-post/district-csv.js:116-118 | a space becomes `-`, an upper-case letter its lower-case letter, and every other character is kept, at the same position |
| DistrictCsv.DistinctFileName | scrapers/kathmandu-post/district-csv.js:115-118 | the file name ends in `.csv` and holds no space, no `"` and no comma |
| DistrictCsv.DistinctFileNameIsNameSlug | scrapers/kathmandu-post/district-csv.js:115-118 | with no comma in the first three cells and no `"` in the name, the file is the name lower-cased, spaces as hyphens, plus `.csv` |
| DistrictCsv.SameSlugSameFile | scrapers/kathmandu-post/district-csv.js:115-119 | names differing only in case or space versus hyphen share a file |
| DistrictCsv.SlugKeepsSlashOut | scrapers/kathmandu-post/district-csv.js:116-118 | a name without `/` gives a file name without `/` |
| DistrictCsv.DistinctAppendLogsFileName | scrapers/kathmandu-post/district-csv.js:119-120 | a successful per-district append logs the district's file name |
| DistrictCsv.OutputAppends | scrapers/kathmandu-post/district-csv.js:151-155 | one aggregate append and then one append per record |
| DistrictCsv.AppendDistrictAggregateCsv | scrapers/kathmandu-post/district-csv.js:98-102 | all rows go to the aggregate file in one append |
| DistrictCsv.AppendDistinctDistrictCsv | scrapers/kathmandu-post/district-csv.js:112-122 | one append per record, in order, each to the file named after field 2 of its row |
| DistrictCsv.AppendDistinct | scrapers/kathmandu-post/district-csv.js:114-120 | one record's row is appended to the file its name slug selects, and the log gains that append's line |
| DistrictCsv.AppendDataToCsv | scrapers/kathmandu-post/district-csv.js:151-155 | nothing is written when normalisation throws; otherwise the aggregate append precedes the per-district appends |
| DistrictCsv.AppendNormalized | scrapers/kathmandu-post/district-csv.js:152-154 | the aggregate append happens first, then the per-district appends, and the log lists them in that order |
| OverviewCsv.NormalizeJson | scrapers/kathmandu-post/overview-csv.js:14-17 | a one-element list holding the very object passed in, with `date` set |
| OverviewCsv.AppendOverviewCsv | scrapers/kathmandu-post/overview-csv.js:27-49 | the normalised list goes to `overview.csv` in one append |
| OverviewCsv.AppendDataToCsv | scrapers/kathmandu-post/overview-csv.js:70-73 | the object is stamped in place and written as one line |
| OverviewCsv.OneRecordOneRow | scrapers/kathmandu-post/overview-csv.js:46 | a one-record list is written as that record's row alone |
| OverviewCsv.OverviewRowColumns | scrapers/kathmandu-post/overview-csv.js:28-39 | the row has exactly the columns date, confirmed, active, recovered, readmitted |
| OverviewCsv.OverviewIgnoresOtherKeys | scrapers/kathmandu-post/overview-csv.js:28-34 | properties outside the five fields never reach the file |
| OverviewCsv.OverviewDropsDeaths | scrapers/kathmandu-post/overview-csv.js:28-34 | `deaths` is never written, whatever its value |
| OverviewCsv.OverviewExample | scrapers/kathmandu-post/overview-csv.js:51-64 | the documented totals give `2020-07-07,16531,12844,3652,4` |
| Mohp.NormalizeOverviewData | scrapers/mohp/index.js:39-51 | keys in the literal's order; `date` is the current date and each other column is read from its source property of `nepal` |
| Mohp.NormalizeTestingData | scrapers/mohp/index.js:61-71 | the same for the nine testing columns |
| Mohp.ConfirmedIsPcrPositive | scrapers/mohp/index.js:39-71 | overview `confirmed` and testing `pcr_positive` both carry `positive` |
| Mohp.TimestampsCopied | scrapers/mohp/index.js:39-71 | both views end with `created_at` and `updated_at` copied verbatim and start with the same date |
| Mohp.ProjectionsReadOnlySources | scrapers/mohp/index.js:39-71 | properties of `nepal` neither literal names do not affect the views |
| Mohp.LiteralCells | scrapers/mohp/index.js:25-28 | without `fields` json2csv writes one cell per property in key order, `undefined` as empty |
| Mohp.LiteralRow | scrapers/mohp/index.js:25-28 | one line with a comma between each two properties, and exactly one per boundary when no value holds a comma |
| Mohp.OverviewRowColumns | scrapers/mohp/index.js:39-51 | the overview line has 11 columns: the date, then the ten source values in order |
| Mohp.TestingRowColumns | scrapers/mohp/index.js:61-71 | the testing line has 9 columns: the date, then the eight source values in order |
| Mohp.MohpAppends | scrapers/mohp/index.js:110-113 | the overview append comes first, to `overview.csv`, then the testing append, to `testing.csv` |
| Mohp.AppendOverviewCsv | scrapers/mohp/index.js:81-85 | the overview object goes to `overview.csv` as one line |
| Mohp.AppendTestingCsv | scrapers/mohp/index.js:95-99 | the testing object goes to `testing.csv` as one line |
| Mohp.MohpData | scrapers/mohp/index.js:104-117 | without a `nepal` object the error is logged and no file changes; otherwise both views of the same object are appended, overview first |
| DistrictPattern.ShortestFrom | scrapers/kathmandu-post/index.js:21-22 | the lazy capture: the shortest line-terminator-free run followed by `')`, or none |
| DistrictPattern.LeftmostFrom | scrapers/kathmandu-post/index.js:21-22 | the leftmost start where the expression matches, with its shortest capture |
| DistrictPattern.Exec | scrapers/kathmandu-post/index.js:21-22 | `exec` finds a capture exactly when the expression matches somewhere |
| DistrictPattern.ExecIsLeftmostShortest | scrapers/kathmandu-post/index.js:21-22 | the captured text is the shortest capture at the leftmost matching start |
| DistrictPattern.ExecExample | scrapers/kathmandu-post/index.js:21-23 | `var district_data = JSON.parse('…');` yields the quoted blob |
| DistrictPattern.MatchImpliesMarker | scrapers/kathmandu-post/index.js:20-22 | a script the expression matches always contains the marker |
| KathmanduPost.OverviewOf | scrapers/kathmandu-post/index.js:38-46 | the overview object has a property for each span's label and no other, each holding the text of a span stored under it |
| KathmanduPost.ParseOverviewData | scrapers/kathmandu-post/index.js:38-46 | the loop stores span `index` under `labels[index]`, as `OverviewOf` |
| KathmanduPost.KeysDistinct | scrapers/kathmandu-post/index.js:39 | the five labels and `undefined` are distinct property names |
| KathmanduPost.OverviewOfLast | scrapers/kathmandu-post/index.js:42-44 | a key holds the text of the last span stored under it |
| KathmanduPost.OverviewLabels | scrapers/kathmandu-post/index.js:39-44 | span i is stored under the i-th label; with fewer spans the later labels are absent |
| KathmanduPost.OverviewUndefinedKey | scrapers/kathmandu-post/index.js:39-45 | spans past the fifth go to `undefined`, the last one winning; with five or fewer there is no `undefined` |
| KathmanduPost.FirstMarked | scrapers/kathmandu-post/index.js:18-27 | the first inline script containing `var district_data`, none when no script does |
| KathmanduPost.Extract | scrapers/kathmandu-post/index.js:15-29 | no script is reported exactly when no script holds the marker; records come only from the decoded capture of a marked script |
| KathmanduPost.ParseDistrictData | scrapers/kathmandu-post/index.js:15-29 | the scan stops at the first marked script; the result is its decoded capture, or which step failed |
| KathmanduPost.ExtractOnlyFirstMarked | scrapers/kathmandu-post/index.js:18-27 | scripts after the first marked one do not affect the outcome |
| KathmanduPost.ExtractFromFirstMarked | scrapers/kathmandu-post/index.js:20-24 | the first marked script alone decides: no match throws, a decodable capture gives the records |
| KathmanduPost.NewObjects | scrapers/kathmandu-post/index.js:23 | the decoded records are fresh, distinct objects with the decoded properties |
| KathmanduPost.AppendDistricts | scrapers/kathmandu-post/index.js:58 | on the parsed records, nothing is written when a province is missing; otherwise the district appends are made |
| KathmanduPost.AppendPage | scrapers/kathmandu-post/index.js:58-59 | the overview append follows the district appends and is skipped when the district step throws |
| KathmanduPost.PageAppends | scrapers/kathmandu-post/index.js:58-59 | a successful run appends the aggregate file first and the overview file last |
| KathmanduPost.PageAppendsInOrder | scrapers/kathmandu-post/index.js:58-59 | the page's appends are the district appends followed by the overview append |
| KathmanduPost.KathmanduPostData | scrapers/kathmandu-post/index.js:51-63 | any extraction or normalisation error is caught and logged and nothing is appended; otherwise districts are appended before the overview |

## Left out

- HTTP requests (axios), the Cheerio DOM queries and `children[0].data` are not modelled: the page is given as the span texts and the inline script texts, and the MOHP answer as its `nepal` object.
- `JSON.parse` is a parameter (`decode`) together with `Object.values`: the order of the decoded records is taken as given.
- json2csv is modelled only for the options used (fields in order or in key order, comma, no header, no quote); values are strings, and JSON numbers' rendering to text is not modelled.
- The logger is not part of this model: log lines are recorded as values, and whether `logger.err` exists is not modelled.
- `fs.appendFile` is asynchronous: the model applies appends in call order and logs in call order, while the callbacks (and their log lines) may complete in another order. The rethrow inside a failed append's callback is an uncaught exception that ends the process; the model records the error line and continues with the appends already issued.
- Path construction with `path.join` and `require.main.filename` is not modelled: paths are relative to the repository root.
- Csv.Rows: rows are separated by `\n`; json2csv's default `eol` is the platform line ending (`os.EOL`), which is `\r\n` on Windows.
- Two `fs.appendFile` calls to the same path (two records whose names give the same slug) may land in either order; the model applies them in call order.
- The orchestrator `scrapers/index.js` (MOHP, then Kathmandu Post) is not part of this model.
- Text.Lower: `_.toLower` and `toLocaleLowerCase` are modelled for ASCII letters only; Unicode case mapping is not.
- Strings are sequences of code points, not UTF-16 code units.
- The wall clock is the parameter `now`; one value serves a whole run, so a run that straddles midnight UTC is not modelled.
- Errors thrown by an empty inline script (`children[0]` undefined) are not modelled.
