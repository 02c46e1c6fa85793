# get-donations in Dafny

A model of the data-handling core of get-donations, a set of Node.js scripts
that read IRS Form 990 e-filings (XML) of hospitals and report their
Schedule H community-benefit figures.

- **Field catalog and extractor** (`field_catalog.dfy`, `extractor.dfy`):
  - `getFields` builds the 52-entry column catalog: 7 header columns, the
    10 × 4 Part I line-7 columns, and 5 Part III columns.
  - `parseNumber` makes the blank-versus-number distinction.
  - `isValidFormat` / `getTaxYear` form the `TaxYr` gate.
  - `extractFields` builds one record per filing.
- **Filings as trees** (`xml_tree.dfy`): a filing is a tree of elements.
  - The XPath selections `//a/b/c` are modelled as "every element whose tag chain ends in `a, b, c`, in document order".
  - DOM `getElementsByTagName` is modelled as "every descendant with that tag, in document order".
- **Legacy report** (`donations.dfy`):
  - It builds the TSV header.
  - It builds one row and one JSON object per filing.
  - It keeps only the first filing of each period-end date.
  - It reads the EIN list from `eins.txt`.
- **Per-EIN filing selection** (`xml_data.dfy`): `getXMLData` keeps one filing per requested tax year, and the last file wins.
- **Mega index** (`mega_index.dfy`): the build loop keeps a filing when its net community benefit, line 7k column (e), is positive.
- **EIN index** (`ein_index.dfy`): each EIN maps to the sorted object keys of its filings.
- **Schedule H report** (`schedule_h.dfy`):
  - the row filters and their sequential application;
  - `list:` expansion and de-duplication of the EIN list;
  - free-text column matching;
  - `{key}` substitution in the output path;
  - business-name defaulting.
- **Excel report** (`build_report.dfy`):
  - `cellAddress` and its inverse;
  - `einType` precedence;
  - the distinct tax years;
  - `twist`, which gives one ranked entry per EIN, sorted by average.
- **Name lists** (`make_lists.dfy`): the last-write-wins name maps, overall and per state. The records `extractFields` builds carry no `state` property. So the per-state lists come out empty for indexes this repository builds (`MakeLists.ExtractedRowsBuildNoStates`). `lib/extractFields.js` reads neither, and the model follows the code.

Supporting modules:
- `outcomes.dfy`: `Option`, `Result` and the error kinds. A `TypeError` or a property read on `undefined` becomes an `Err`.
- `js_text.dfy`: the JavaScript string methods used.
- `js_values.dfy`: `parseInt`, `parseFloat`, `Number`, relational comparison and `===`, over exact reals.
- `sequences.dfy`: `filter`, de-duplication, and cross products.
- `sorting.dfy`: a stable insertion sort, generic over a strict order.

The main loops of `getDonations.js`, `lib/einIndex.js`, `scripts/build-mega-index.js` and `makeLists.js` are written twice:
- once as a fold (a function);
- once as a `method` with the script's loop, whose postcondition says it computes the fold.

The loops of `getScheduleH.js` and `buildReport.js` are written once. The `configEins` loop, the filter loop, the name defaulting and the `twist` loop are folds (`ScheduleH.ConfigEins`, `ScheduleH.ApplyAll`, `ScheduleH.DefaultNames`, `BuildReport.TwistEntries`). The free-text loop is a method (`ScheduleH.FreeTextColumn`).

Loading a file, fetching, parsing XML or YAML, and reading a directory become function parameters (`load`, `read`) or inputs (`listing`, `entries`).

## Model

| member | source | states |
|---|---|---|
| FieldCatalog.ExtraSpecs | lib/extractFields.js:31-37 | reference definition of the extra catalog entries; `ExtraEntry` and `DerivedEntriesSelfTitled` state them |
| FieldCatalog.CatalogSize | lib/extractFields.js:43-66 | the catalog has 7 + 10·4 + 5 = 52 entries and opens with the seven header entries |
| FieldCatalog.GetFields | lib/extractFields.js:43-66 | reference definition of the catalog; `CatalogSize`, `PartIEntry`, `ExtraEntry`, `CatalogIds` and `IdsDistinct` state its layout |
| FieldCatalog.PartIEntry | lib/extractFields.js:53-61 | entry 7 + 4i + j is the line-i prefix followed by the field-j suffix, titled by its id (line-major, field-minor) |
| FieldCatalog.ExtraEntry | lib/extractFields.js:62-64 | entry 47 + k is the k-th extra id, titled by its id |
| FieldCatalog.NetCommunityBenefitColumn | lib/extractFields.js:19-26 | the column for line 7k, net community benefit, is `SchH_I_7_k_e` |
| FieldCatalog.PartIIdShape | lib/extractFields.js:55 | every Part I id is twelve characters: a `SchH_I_7_?_` prefix and one sub-field letter |
| FieldCatalog.PartIIdsInjective | lib/extractFields.js:53-61 | distinct (line, field) pairs give distinct ids |
| FieldCatalog.DerivedEntriesSelfTitled | lib/extractFields.js:53-64 | every derived and extra entry has title equal to id |
| FieldCatalog.CatalogIds | lib/extractFields.js:43-66 | the ids are the header ids, then the Part I ids, then the extra ids |
| FieldCatalog.IdsDistinct | lib/extractFields.js:43-66 | no two catalog entries share an id |
| Extractor.ParseNumber | lib/extractFields.js:76 | the result is blank exactly for the empty text; any other text becomes that number |
| Extractor.BlankIsNotZero | lib/extractFields.js:76 | `"0"` reads as the number 0, which differs from the blank |
| Extractor.GetTaxYear | lib/extractFields.js:92-94 | it succeeds exactly when the format gate holds (a `TaxYr` element exists), and is then `parseInt` of the first one's text |
| Extractor.IsValidFormat | lib/extractFields.js:83-85 | reference definition of the format gate (some `TaxYr` element); `GetTaxYear`, `MegaIndex.FromFile` and `XmlData.StoredYear` are stated against it |
| Extractor.Required | lib/extractFields.js:103-119 | a mandatory read succeeds exactly when the element exists, with its first text; otherwise it fails naming the path |
| Extractor.NumberAt | lib/extractFields.js:122-139 | an optional number is blank when the element is missing or empty, and otherwise the element's text as a number |
| Extractor.NumberBelowMissing | lib/extractFields.js:133-139 | a field below a missing line group reads as blank |
| Extractor.ExtraValue | lib/extractFields.js:144-150 | an extra tag yields blank or a number, never an error |
| Extractor.ExtraEntries | lib/extractFields.js:144-151 | reference definition of the extra record entries; `ExtraValueAt` states them |
| Extractor.BusinessName | lib/extractFields.js:106-110 | the name is the `BusinessNameLine1Txt` text if present, else the `BusinessNameLine1` text, and `undefined` when neither exists |
| Extractor.BusinessNameAsWritten | lib/extractFields.js:106-110 | as written: with no `BusinessNameLine1Txt` the fallback `select` has no context node and throws |
| Extractor.Assemble | lib/extractFields.js:100-153 | a record is built only when the name read succeeds, and it is the catalog-ordered record of the header values |
| Extractor.ExtractFields | lib/extractFields.js:100-153 | extraction succeeds exactly when `EIN`, `TaxYr`, `TaxPeriodEndDt` and `ReturnTs` all exist, and then yields the record of those values |
| Extractor.ExtractFieldsAsWritten | lib/extractFields.js:100-153 | as written, extraction also fails when `BusinessNameLine1Txt` is missing |
| Extractor.RecordOfKeys | lib/extractFields.js:43-66 | every record's keys are the catalog ids, in catalog order |
| Extractor.RecordKeysAreCatalogIds | lib/extractFields.js:100-153 | an extracted record's keys are exactly the catalog ids, without repetition |
| Extractor.RecordOfPartI | lib/extractFields.js:133-141 | each Part I key holds the value read at its line group and field |
| Extractor.PartIValue | lib/extractFields.js:133-141 | each Part I key is present; it is blank exactly when its element is missing or empty, and otherwise it is that element's number |
| Extractor.MissingLineBlankIn | lib/extractFields.js:133-141 | a missing line group makes all four of its columns blank |
| Extractor.MissingLineIsBlank | lib/extractFields.js:133-141 | in an extracted record, a missing line group gives blank columns, not an error |
| Extractor.ExtraValueAt | lib/extractFields.js:144-150 | each extra key is present; it is blank exactly when its tag is missing or empty |
| Extractor.AsWrittenAgreesWhenNamePresent | lib/extractFields.js:106-110 | when `BusinessNameLine1Txt` exists, the code as written and the corrected code agree |
| Extractor.LegacyNameCounterexample | lib/extractFields.js:109 | a filing naming its filer only by `BusinessNameLine1` fails as written but extracts when corrected |
| Extractor.Filing2018Year | __tests__/lib/extractFields.spec.js:22-28 | on a filing with `TaxYr` 2018 the gate holds and the tax year is 2018 |
| XmlTree.FirstText | lib/extractFields.js:93 | the first selected element's text exists exactly when the selection is non-empty |
| XmlTree.ParentSelected | lib/extractFields.js:135-136 | when `//…/a/b` selects something, so does `//…/a` |
| Donations.HeaderShape | getDonations.js:153-164 | the TSV header has 4 fixed columns then one per (line, field) pair: 52 columns |
| Donations.HeaderTitle | getDonations.js:160-164 | column 4 + 4i + j is titled `line field` for line i and field j |
| Donations.Header | getDonations.js:153-164 | reference definition of the TSV header; `HeaderShape` and `HeaderTitle` state its layout |
| Donations.LinesDistinct | getDonations.js:6-19 | the twelve line tags are distinct |
| Donations.FieldsDistinct | getDonations.js:22-27 | the four field tags are distinct |
| Donations.PeriodEnd | getDonations.js:92-93 | the period-end date is the first `TaxPeriodEndDt` text, and reading it fails when there is none |
| Donations.FilerName | getDonations.js:100-104 | the name read succeeds exactly when a `Filer` holds a `BusinessNameLine1Txt` |
| Donations.TotalExpenses | getDonations.js:111-118 | the total is `""` when `TotalFunctionalExpensesGrp` or its `TotalAmt` is missing, otherwise its text |
| Donations.Build | getDonations.js:106-147 | a row is built exactly when the name reads. It has the header's width and starts with the EIN, name, date and total. Its JSON keeps the date |
| Donations.BuildColumn | getDonations.js:133-144 | column 4 + 4i + j is the field's text, or `""` when the line or field is missing |
| Donations.BuildJsonField | getDonations.js:133-142 | the JSON key `line_field` is present exactly when both elements exist, with `parseFloat` of the text |
| Donations.AssignedLookup | getDonations.js:137-139 | with distinct keys, each assigned key reads back its own parsed text |
| Donations.JsonKeyInjective | getDonations.js:139 | `line_field` keys of distinct pairs differ, since no line tag has `_` |
| Donations.CandidateKeysDistinct | getDonations.js:133-139 | the 48 JSON keys of one filing are distinct |
| Donations.Step | getDonations.js:92-147 | an unseen date adds the filing's row; a seen date adds nothing. A missing date or name fails |
| Donations.RunReport | getDonations.js:79-150 | the loop over the filings computes the fold |
| Donations.Run | getDonations.js:85-104 | reference definition of the loop over the filings; `RunFailsFromPrefix`, `RunAllDated`, `RunOnePerDate` and `RunKeepsFirst` state its behaviour |
| Donations.RunFailsFromPrefix | getDonations.js:87-104 | once a filing fails, the rest of the run fails the same way |
| Donations.RunAllDated | getDonations.js:92-93 | a successful run read a date from every filing |
| Donations.RunOnePerDate | getDonations.js:85-97 | the rows have distinct dates, and they cover exactly the dates of the filings |
| Donations.ReportOnePerDate | getDonations.js:83-97 | with the script's row builder, one row per date, and the first filing of each date gives its row |
| Donations.RunKeepsFirst | getDonations.js:95-97 | the first filing with a given date produces a row |
| Donations.SkipsLaterDuplicate | getDonations.js:96-97 | a later filing with an already-seen date changes nothing |
| Donations.TsvRowWidth | getDonations.js:146 | a row without tabs in its cells splits back into its columns, as many as the header has |
| Donations.Filter | getDonations.js:172 | every line kept is a non-empty line of the input, and every non-empty line of the input is kept |
| Donations.FilterKeepsNonEmpty | getDonations.js:172 | a list of non-empty lines is kept whole, in order |
| Donations.FilterLineByLine | getDonations.js:172 | filtering distributes over concatenation and drops exactly the empty lines, so the non-empty lines are kept in their order |
| Donations.EinsOfListing | getDonations.js:168-175 | a listing of EINs, one per line, reads back as those EINs |
| Donations.ListingLines | getDonations.js:168-172 | the non-empty lines of such a listing are the EINs' decimal texts |
| Donations.DecimalReadsBack | getDonations.js:175 | `parseInt(trim(decimal text of n))` is n |
| XmlData.StoredYearMeaning | lib/getXMLData.js:44-47 | both directions of the storing condition: valid format, tax year `y`, `y` requested |
| XmlData.Collect | lib/getXMLData.js:24-60 | every stored year maps to a filing stored under that year |
| XmlData.GetXmlData | lib/getXMLData.js:15-62 | the result maps only requested years, each to a valid filing of that year |
| XmlData.UnknownEinIsEmpty | lib/getXMLData.js:19-24 | an EIN missing from the index yields no filings |
| XmlData.CollectLast | lib/getXMLData.js:43-47 | the last file's filing, when stored, overwrites its year; otherwise the map is unchanged |
| XmlData.CollectKeysFrom | lib/getXMLData.js:44-47 | a stored year comes from some file holding a filing of that year |
| XmlData.CollectKeysTo | lib/getXMLData.js:44-47 | every file holding a filing with a year gets that year stored |
| XmlData.CollectKeys | lib/getXMLData.js:43-59 | a year is stored exactly when some file holds a filing of that year; files with no year (invalid or unrequested) are never stored |
| XmlData.LastWins | lib/getXMLData.js:43-47 | a year maps to the filing of the last file holding that year |
| XmlData.GetXmlDataLoop | lib/getXMLData.js:15-62 | the loop computes the fold, storing a filing only when it is valid and its year requested |
| MegaIndex.ConsideredFiles | scripts/build-mega-index.js:13-15 | exactly the listed names starting with the year and ending in `.xml` are visited |
| MegaIndex.BlankNeverKept | scripts/build-mega-index.js:28 | a blank net benefit is never kept (`"" > 0` is false) |
| MegaIndex.NumberKeptIffPositive | scripts/build-mega-index.js:28 | a numeric net benefit is kept exactly when it parses to a positive number |
| MegaIndex.Keep | scripts/build-mega-index.js:28 | reference definition of the retention test `data.SchH_I_7_k_e > 0`; `BlankNeverKept`, `NumberKeptIffPositive` and `KeepReadsNetBenefit` characterise it |
| MegaIndex.KeepOfNumberAt | scripts/build-mega-index.js:28 | a record holding the value read at line 7k column (e) is kept exactly when the filing reports a positive net benefit |
| MegaIndex.KeepOfRecord | scripts/build-mega-index.js:28 | every record the extractor builds is kept exactly when line 7k column (e) is positive |
| MegaIndex.KeepReadsNetBenefit | scripts/build-mega-index.js:26-28 | on an extracted filing, retention means a positive reported net benefit |
| MegaIndex.KeptComeFromFiles | scripts/build-mega-index.js:23-37 | every record in the index comes from a file that loaded, passed the gate and extracted, and it is kept |
| MegaIndex.FromFile | scripts/build-mega-index.js:23-36 | reference definition of one file's contribution; `KeptComeFromFiles` and `SkippedFileChangesNothing` state it |
| MegaIndex.Kept | scripts/build-mega-index.js:17-37 | reference definition of the index; `KeptComeFromFiles` and `KeptPrefix` state its contents and order |
| MegaIndex.SkippedFileChangesNothing | scripts/build-mega-index.js:23-37 | a file that fails to load or extract, or is not kept, changes nothing; the loop goes on |
| MegaIndex.KeptPrefix | scripts/build-mega-index.js:17-31 | records keep file order: a prefix of the files gives a prefix of the records |
| MegaIndex.BuildMegaIndex | scripts/build-mega-index.js:13-37 | the loop computes the kept records, and `count` is their number |
| MegaIndex.IndexedFilingsReportPositiveBenefit | scripts/build-mega-index.js:26-31 | with the corrected extractor, every indexed record is the extraction of a valid filing with a positive net benefit |
| MegaIndex.IndexedFilingsReportPositiveBenefitAsWritten | scripts/build-mega-index.js:26-31 | with `extractFields` as written, every indexed record is the extraction of a valid filing that has the current name element and a positive net benefit |
| EinIndex.ObjectKeyOfBucketUrl | lib/einIndex.js:15 | a URL inside the bucket becomes the path below the bucket address |
| EinIndex.ObjectKeyOfOtherUrl | lib/einIndex.js:15 | a URL without the bucket address is kept as it is |
| EinIndex.OtherEntriesIgnored | lib/einIndex.js:9 | a directory entry whose name lacks `.json` contributes nothing |
| EinIndex.AddFilingEffect | lib/einIndex.js:13-17 | one filing adds its key to its EIN's list, which ends sorted; other EINs are untouched |
| EinIndex.AddFiling | lib/einIndex.js:13-17 | reference definition of one filing's step; `AddFilingEffect` states its effect |
| EinIndex.AddAllKeys | lib/einIndex.js:12-13 | the EINs in the index are exactly the EINs of the filings seen |
| EinIndex.AddAllSorted | lib/einIndex.js:17 | every list is sorted |
| EinIndex.AddAllContents | lib/einIndex.js:13-16 | an EIN's list holds exactly its filings' object keys, duplicates included |
| EinIndex.IndexKeys | lib/einIndex.js:8-17 | the built index has an entry exactly for each EIN of the index files |
| EinIndex.IndexLists | lib/einIndex.js:13-17 | each list is sorted and is a permutation of that EIN's object keys |
| EinIndex.BuildIndex | lib/einIndex.js:8-21 | reference definition of the index; `IndexKeys` and `IndexLists` state its contents |
| EinIndex.AddGroup | lib/einIndex.js:12-18 | the loop over one key's filings adds each filing in order (the fold over the group, for any per-filing step) |
| EinIndex.AddIndexFile | lib/einIndex.js:11-19 | the loop over an index file's keys adds the filings of every key, keys in order |
| EinIndex.BuildIndexLoop | lib/einIndex.js:8-21 | the loop over the directory adds the filings of the `.json` entries only; with the script's push-and-sort step it yields exactly `BuildIndex` |
| ScheduleH.Apply | getScheduleH.js:37-65 | `minimumYears` keeps all rows when there are more than the minimum, else none. `includes` fails on a non-string field. Every other filter keeps only given rows |
| ScheduleH.FilterOf | getScheduleH.js:44-65 | `includes` needs a string value and lower-cases it; `gt`/`lt` parse the value; any other operator is equality |
| ScheduleH.FieldFilters | getScheduleH.js:42-67 | one filter per definition in order, or a failure from some definition |
| ScheduleH.FiltersOf | getScheduleH.js:35-67 | a set `minimumYears` filter comes first, then the field filters |
| ScheduleH.IncludesIsCaseInsensitive | getScheduleH.js:44-50 | a row passes `includes` exactly when its lower-cased field contains the lower-cased value |
| ScheduleH.IncludesIgnoresValueCase | getScheduleH.js:45 | the case of the configured value does not matter |
| ScheduleH.GtKeeps | getScheduleH.js:51-55 | `gt` keeps exactly the rows whose property, as a number, exceeds `parseFloat` of the value |
| ScheduleH.LtKeeps | getScheduleH.js:56-60 | `lt` keeps exactly the rows whose property, as a number, is below `parseFloat` of the value |
| ScheduleH.BoundsAreStrict | getScheduleH.js:51-60 | a row equal to the bound passes neither `gt` nor `lt` |
| ScheduleH.OtherOperatorIsEquality | getScheduleH.js:61-65 | any other operator keeps exactly the rows strictly equal to the value |
| ScheduleH.ApplyAll | getScheduleH.js:148-151 | the filters keep only given rows, and no filters keep them all |
| ScheduleH.ApplyAllAppend | getScheduleH.js:148-151 | applying filters `a + b` is applying `a`, then `b` to the result |
| ScheduleH.ComparisonsConjoin | getScheduleH.js:148-151 | two comparison filters in a row keep the rows passing both |
| ScheduleH.ExpandEntry | getScheduleH.js:71-83 | a string entry without `list:` stands for itself |
| ScheduleH.ConfigEins | getScheduleH.js:70-83 | reference definition of `configEins`, failing at the first entry that is not a string; the next three rows state it |
| ScheduleH.ConfigEinsFailsOnNonString | getScheduleH.js:71-72 | the EIN list is built exactly when every entry is a string; otherwise `ein.includes` throws |
| ScheduleH.PlainEinsPassThrough | getScheduleH.js:80-82 | a list of plain string entries expands to itself |
| ScheduleH.ListEntryExpands | getScheduleH.js:72-79 | `list:name` expands to the EINs of that list, after the earlier entries; a failure among the earlier entries stands |
| ScheduleH.EinsToProcess | getScheduleH.js:89-91 | no EIN repeats, and the EINs are exactly the configured and the named ones |
| ScheduleH.EinsToProcessOrder | getScheduleH.js:89-91 | configured EINs before those only in `einsWithNames`, and the EINs in the order of their first occurrences in the joined list |
| ScheduleH.FreeTextFieldOf | getScheduleH.js:99-104 | a free-text field's filters are lower-cased |
| ScheduleH.LastMatch | getScheduleH.js:167-176 | reference definition of the explanation the loop leaves; `LastMatchNone` and `LastMatchSome` characterise it |
| ScheduleH.LastMatchNone | getScheduleH.js:167-176 | no explanation is taken exactly when no entry's form line contains every filter |
| ScheduleH.LastMatchSome | getScheduleH.js:167-176 | the explanation taken is that of the last entry matching every filter |
| ScheduleH.FreeTextColumn | getScheduleH.js:167-176 | the loop throws when the row has no `freeText` list; otherwise it sets the column to the last match, or leaves it as it was |
| ScheduleH.WithoutOpenBraces | getScheduleH.js:129 | the placeholder name loses its braces |
| ScheduleH.SubstitutePlain | getScheduleH.js:127-130 | a path without `{` is unchanged |
| ScheduleH.Substitute | getScheduleH.js:127-130 | reference definition of the templating; the `Substitute…` lemmas state it |
| ScheduleH.SubstituteAtPlaceholder | getScheduleH.js:127-130 | a leading `{key}` becomes that key's value (`undefined` for an unknown key) |
| ScheduleH.SubstitutePlaceholder | getScheduleH.js:122-130 | in `prefix{key}rest`, the prefix is kept, `{key}` becomes its value, and the rest is substituted |
| ScheduleH.MinYear | getScheduleH.js:123 | `Math.min` of the years: absent for none, else a year no larger than any |
| ScheduleH.MaxYear | getScheduleH.js:124 | `Math.max` of the years: absent for none, else a year no smaller than any |
| ScheduleH.ReplacementValues | getScheduleH.js:122-126 | exactly the keys `minYear`, `maxYear` and `einCount`: the smallest and largest year (`Infinity` and `-Infinity` for none) and the EIN count |
| ScheduleH.DefaultNames | getScheduleH.js:162-165 | one name per record of the EIN |
| ScheduleH.FirstTruthy | getScheduleH.js:162-164 | the remembered name is truthy; none is remembered only when every candidate is falsy |
| ScheduleH.DefaultNamesFirstTruthy | getScheduleH.js:162-165 | each record gets the first truthy name so far, or keeps its own |
| ScheduleH.ConfiguredNameWins | getScheduleH.js:162-165 | a configured name is used for every record |
| ScheduleH.FirstRowNameWins | getScheduleH.js:162-165 | with no configured name, the first record's truthy name is reused for all |
| BuildReport.Letter | buildReport.js:13-14 | a letter code below 26 is an upper-case letter |
| BuildReport.CellAddress | buildReport.js:8-18 | reference definition of `cellAddress`; `CellAddressReadsBack`, `CellAddressInjective`, `PastZZNotALetter` and `CellAddressWrapsAround` state it |
| BuildReport.CellAddressReadsBack | buildReport.js:8-16 | for columns below 702 the address parses back to its column and row |
| BuildReport.CellAddressInjective | buildReport.js:8-16 | distinct cells below column 702 have distinct addresses |
| BuildReport.PastZZNotALetter | buildReport.js:14 | from column 702 until `fromCharCode` wraps at column 26 · 65537, the first character is not a capital letter |
| BuildReport.CellAddressWrapsAround | buildReport.js:14 | at column 26 · 65537 the code wraps around and the address starts with `A` again |
| BuildReport.EinType | buildReport.js:41-45 | 1 exactly when the highlight list holds the EIN as a string, 2 exactly when only the peer list does, else 0 |
| BuildReport.NumericEntriesNeverMatch | buildReport.js:42-43 | lists whose entries are numbers (unquoted EINs in the YAML) never match an EIN read from the spreadsheet |
| BuildReport.HighlightBeatsPeer | buildReport.js:42 | an EIN in both lists is highlighted |
| BuildReport.TaxYears | buildReport.js:31 | reference definition of the parsed tax years; `YearsAreDistinctTaxYears` states what `years` makes of them |
| BuildReport.ReparseIdentity | buildReport.js:31-33 | parsing a parsed year again changes nothing |
| BuildReport.YearsAreDistinctTaxYears | buildReport.js:31-33 | the years are the rows' distinct tax years in first-occurrence order |
| BuildReport.Years | buildReport.js:31-33 | reference definition of `years`; `YearsAreDistinctTaxYears` states it |
| BuildReport.Total | buildReport.js:88-95 | the count is at most the number of years |
| BuildReport.TotalCounts | buildReport.js:88-95 | the count is the number of years with a value |
| BuildReport.MeanOfNothing | buildReport.js:96 | with no values the average is 0 |
| BuildReport.Mean | buildReport.js:88-96 | reference definition of the average; `TotalCounts` and `MeanOfNothing` state it |
| BuildReport.EntryOf | buildReport.js:77 | the lookup finds an entry of that EIN, or there is none |
| BuildReport.TwistStep | buildReport.js:76-97 | one row adds an entry for a new EIN, named by that row, and renames nothing |
| BuildReport.TwistStepKeeps | buildReport.js:76-97 | one row keeps one entry per EIN, each average the mean of its values |
| BuildReport.TwistEntriesInvariant | buildReport.js:74-98 | one entry per EIN, each average the mean of its year values |
| BuildReport.TwistEntriesCover | buildReport.js:76-83 | every row's EIN has an entry |
| BuildReport.TwistEntriesNames | buildReport.js:77-83 | every entry carries the business name of its EIN's first row |
| BuildReport.TwistEntries | buildReport.js:74-98 | reference definition of the `twist` loop; `TwistEntriesInvariant`, `TwistEntriesCover` and `TwistEntriesNames` state it |
| BuildReport.EmptyValueSetsNothing | buildReport.js:85 | a row with an empty field sets no year value |
| BuildReport.ValueIsStored | buildReport.js:85-86 | a non-empty field sets that year's value of the row's EIN to `parseFloat` of it; every other EIN keeps its values |
| BuildReport.OtherEinKeepsValues | buildReport.js:77-97 | one step leaves the values of every EIN other than the row's unchanged |
| BuildReport.ByAverageIsStrictOrder | buildReport.js:99 | the comparison is a strict order |
| BuildReport.TwistSorted | buildReport.js:99 | the result is a permutation of the entries, sorted by average |
| BuildReport.TwistNonIncreasing | buildReport.js:99 | neighbouring finite averages do not increase |
| BuildReport.Twist | buildReport.js:74-99 | reference definition of `twist`; `TwistSorted` and `TwistNonIncreasing` state it |
| MakeLists.FilesReadSorted | makeLists.js:6 | the files are read in sorted name order, each as often as listed |
| MakeLists.AddRowRecords | makeLists.js:8-11 | one row sets its EIN's name overall and, with a non-empty state, under that state; every other entry stays, and consistency is kept |
| MakeLists.AddRow | makeLists.js:8-11 | reference definition of one row's step; `AddRowRecords` states its effect |
| MakeLists.MakeLists | makeLists.js:6-13 | reference definition of the lists; `AllKeys`, `AllLastWins`, the `State…` lemmas and `ListsConsistent` state their contents |
| MakeLists.AllKeys | makeLists.js:7-8 | an EIN is in the overall list exactly when some row has it |
| MakeLists.AllLastWins | makeLists.js:7-8 | an EIN's name is that of its last row |
| MakeLists.StateKeysFrom | makeLists.js:9-10 | every state in the per-state lists is the non-empty state of some row |
| MakeLists.StateEntriesTo | makeLists.js:9-11 | every row with a non-empty state lists its EIN under that state |
| MakeLists.StateEntriesFrom | makeLists.js:9-11 | every EIN under a state comes from a row with that EIN and state |
| MakeLists.StateLastWins | makeLists.js:9-11 | an EIN's name under a state is that of its last row in that state |
| MakeLists.AddRowsConsistent | makeLists.js:8-11 | recording rows keeps the empty state out, and keeps every per-state EIN in the overall list |
| MakeLists.ListsConsistent | makeLists.js:6-13 | the built lists have no empty state, and every per-state EIN is in the overall list |
| MakeLists.StatelessRowsBuildNoStates | makeLists.js:9 | rows without a state build no per-state list |
| MakeLists.RecordHasNoState | lib/extractFields.js:100-153 | the extractor's records have no `state` property |
| MakeLists.ExtractedRowsBuildNoStates | makeLists.js:9-12 | rows coming from extracted records build no per-state list |
| MakeLists.AddFileRows | makeLists.js:7-13 | the loop over one file's rows computes the fold |
| MakeLists.MakeListsLoop | makeLists.js:6-14 | the loops over the sorted files compute the fold |

## Left out

- **I/O.** Reading files and directories, the on-disk cache, downloading with `node-fetch`, and writing TSV, JSON, CSV, YAML and Excel files are not modelled. Each becomes a parameter or an input.
- **Parsers.** XML parsing by `DOMParser` and the `xpath` library's internals are not modelled. The document is a tree, and selection is a search over it that all tags share one namespace.
- **Floating point.** `parseFloat`, `parseInt`, the average and the comparisons work on exact reals. IEEE rounding, `Infinity` and hexadecimal literals are not modelled.
- **Object key order.** JavaScript's `Object.keys` lists integer-like keys first, in ascending order.
  - Maps here carry no order.
  - The order of `twist`'s entries before sorting (and so the order of ties) follows first appearance of the EIN.
  - The key order of `einsWithNames` follows the input sequence.
- **Strings.** `toLowerCase` covers ASCII letters only. String sort compares characters, not UTF-16 code units.
- **Out-of-core scripts.** The Excel layout of `buildReport.js` (sheets, fonts, fills, widths) is not modelled, nor are `findCandidateEINs.js`, `scripts/findCandidateEINs.js` and `xpath-test.js`.
- **Regex header selection.** The header selection by regular expression in `getScheduleH.js` (lines 105-111) is not modelled.
- **getScheduleH.js mega-index load.** Reading the mega indexes into `megaIndexes[ein][taxYear]` (lines 16-22) is the same last-write-wins fold as `makeLists.js` and is not repeated.
- **getScheduleH.js CSV tables.** The per-field CSV tables (lines 139-241) are output layout and are not modelled.
- **Free-text wiring.** A free-text column is modelled for one row's `freeText` list, `None` when the row has none. The extractor produces no `freeText` property, so on indexes this repository builds, any configured free-text field makes the loop throw (`ScheduleH.FreeTextColumn` returns an error for `None`).
- **Configuration values.** An entry of `config.eins` is a string, number, `null` or `undefined`. A YAML boolean, list or mapping entry is not modelled. `ScheduleH.ConfigEins` fails on every entry that is not a string, as `ein.includes` does.
- BuildReport.EinType: `config.highlight` and `config.peers` are modelled as lists or absent. A scalar string makes `includes` a substring test, and a scalar number makes it throw. Neither case is modelled.
- BuildReport.FromCharCode: a code unit in the surrogate range becomes U+FFFD, because a Dafny `char` cannot hold a lone surrogate. For columns below 702, `cellAddress` only uses codes 65 to 90, the letters A to Z.
- MegaIndex.BuildMegaIndex:
  - The extraction step is a parameter.
  - The script passes `extractFields` as written. `IndexedFilingsReportPositiveBenefitAsWritten` states the connection to filings for it. With it, a filing with only the legacy name tag throws inside the `try` and is skipped.
  - `IndexedFilingsReportPositiveBenefit` states the same for the corrected `ExtractFields`.
- Donations.RunReport: the row builder is a parameter. The script's builder is `Donations.Build`, and `Donations.ReportOnePerDate` states the result for it.
- BuildReport.TwistSorted: JavaScript's sort with `b.average - a.average` is undefined for `NaN` averages. The model sorts with a strict order that puts finite averages in non-increasing order. A `NaN` average is unordered against every other average.

## Findings

| source | as written | input that shows it | evidently intended | confidence | as-written member | corrected member |
|---|---|---|---|---|---|---|
| lib/extractFields.js:109 | the fallback `select("//irs:Filer/irs:BusinessName/irs:BusinessNameLine1")` is called without the document, so `xpath` has no context node and throws | a filing whose filer name is only under `BusinessNameLine1` (the older tag), with no `BusinessNameLine1Txt` | read the older tag from the same document and take its text, else `undefined` | not executed | Extractor.ExtractFieldsAsWritten, Extractor.LegacyNameCounterexample | Extractor.ExtractFields, Extractor.BusinessName |
