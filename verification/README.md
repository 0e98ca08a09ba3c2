# Resident registry core, modelled in Dafny

A model of the computational core of a municipal resident-registry application
(households, residents, territories and field agents, kept by a central server
and by collection stations). The model covers five pieces:

- **The data indexer** (`runDataIndexer`). It rebuilds a complete backup bundle from any parsed JSON:
  - it fixes the schema version and stamps the clock value;
  - it defaults the institution;
  - it fills the required fields of every agent, resident and territory by JavaScript falsiness, drawing fresh ids where they are missing;
  - it keeps at most 1000 logs.

  It throws where the JavaScript runtime would. `importBackup` maps every such failure, and every parse failure, to one "invalid backup" error.
- **Station reconciliation** (`handleSyncFile`):
  - incoming residents are merged by `cpf` under `===`, either as a field union in which the incoming record wins or by appending;
  - incoming territories are appended unless an entry with the same street and number already exists.

  The **station export** (`handleExportForServer`) indexes the station's institution, residents and territories, and names the file after the city and date.
- **The resident form:**
  - `validate` works out which fields are in error;
  - `handleSubmit` handles read-only mode, invalid forms and the id of the submitted record;
  - the household head role is preselected for a new record, and the HEAD option is disabled when a head already exists.
- **The report screen:**
  - `getAge`;
  - the conjunctive filter;
  - the grouping of the filtered residents into household units by address key, ordered by size with ties in first-seen order;
  - the summary counters.
- **The CSV export.** It builds a header line and one fully quoted line per resident, and prefixes a byte-order mark. It is paired with a reader for the same dialect: comma-separated, double-quoted fields with doubled inner quotes as in section 2 of RFC 4180, with LF in place of CRLF. The model proves that reading the export gives back the header and every resident's cells.

JavaScript values are modelled as a JSON datatype (`Json.Value`), and plain objects as maps from property names to values. Falsiness, `||` defaulting, optional chaining, object spread, `===` and `String(v)` are written out in the `Json` module. The string primitives are in `Text`: `trim`, `toLowerCase`, `includes`, `join`, whitespace collapsing, digit extraction, `parseInt` and integer printing.

Three inputs become parameters:

- The clock is a parameter `now`, an ISO timestamp.
- `Math.random()` ids come from an id source `ids: nat -> Token`, and every operation that draws ids returns how many it used.
- `new Date(birthDate)` is a parser `parse: string -> Option<Date>`, with None for an Invalid Date. An age computed from such a date is NaN, modelled as None.

The indexer and the merges work on the parsed JSON as it arrives. `App.handleMergeData` passes the merged lists to the state unchanged. The application's own description has the merged data sanitized first. The code does not do this, and the model follows the code.

Files: `wrappers.dfy` (Option, Result), `seqs.dfy` (generic sequence identities), `text.dfy`, `json.dfy`, `types.dfy` (the enumerations' string values), `dataservice.dfy`, `synchub.dfy`, `personform.dfy`, `reports.dfy`, `exportservice.dfy`.

## Model

| member | source | states |
|---|---|---|
| DataService.FixAgent | services/dataService.ts:24-30 | One agent: fields other than id, role, name and username are copied, and a truthy listed field is kept. A falsy role or name takes "Usuário Comum" or "Agente Operacional". A falsy id becomes draw k. A falsy username becomes "agente." plus the next draw (k, or k + 1 after an id draw). Exactly one draw per missing field. |
| DataService.FixResident | services/dataService.ts:31-41 | One resident: the seven listed fields take their defaults only when falsy (birth date = date part of the clock, education = empty record). A falsy id becomes draw k, the only draw. Every other field is copied unchanged. |
| DataService.FixTerritory | services/dataService.ts:43-47 | One territory: a falsy id becomes draw k, a falsy neighborhood becomes "Geral", and everything else is copied. |
| DataService.FixItem | services/dataService.ts:24-47 | A null element makes the indexer throw. Any other element is corrected as above. |
| DataService.FixList | services/dataService.ts:24-47 | `.map` over a collection: succeeds iff no element is null. The output has the same length, and element i is the correction of input element i. The source ends after the draws of every element. |
| DataService.FixListSteps | services/dataService.ts:24-47 | Draws are consumed left to right. For every i, output element i is what `FixItem` makes of input element i, with the id source positioned after the draws of the elements before it (`ItemStep` is `FixItem` as a function of the record and the position). Afterwards the source stands after the draws of elements 0 to i. |
| DataService.FixCollection | services/dataService.ts:24-47 | A falsy collection becomes `[]` with no draws. A truthy non-array throws. An array is mapped as above. |
| DataService.CapLogs | services/dataService.ts:42 | An array keeps its first min(n, 1000) entries. A string keeps its longest prefix of at most 1000 UTF-16 code units: one more character would pass the limit. Falsy gives `[]`. Anything else truthy throws. |
| DataService.CapLogsPairs | services/dataService.ts:42 | Log text made only of characters above U+FFFF keeps at most 500 characters, because each one takes two code units. |
| DataService.FixInstitution | services/dataService.ts:12-23 | An absent or falsy institution gives the fixed placeholder. A present one keeps every field, and only a falsy city, systemMode or cnpj takes its default. The result always has a truthy city, cnpj and systemMode. |
| DataService.Serialize | services/dataService.ts:9-48 | The serialized bundle has exactly the seven bundle keys. |
| DataService.Index | services/dataService.ts:8-51 | Succeeds iff the bundle is not null, every collection is falsy or an array without null, and the logs are falsy, an array or a string. Version "2.5" and timestamp = clock. The institution, the three collections and the logs are as stated per part. |
| DataService.IndexDropsConfig | services/dataService.ts:9-48 | The output carries version "2.5" and the clock value, and never a `config` key, whatever the input held. |
| DataService.IndexEmptyObject | services/dataService.ts:8-51 | An empty object becomes the placeholder institution with empty collections and no draws. |
| DataService.IndexedResidentsComplete | services/dataService.ts:31-41 | Every indexed resident has a truthy id, name, cpf, neighborhood, relationship and education, and has rg and birthDate. birthDate is truthy whenever the clock's date part is non-empty. |
| DataService.FixListSettled | services/dataService.ts:24-47 | A collection whose records are all settled maps to itself and draws nothing. |
| DataService.CapLogsIdempotent | services/dataService.ts:42 | Capping capped logs again changes nothing. |
| DataService.FixInstitutionIdempotent | services/dataService.ts:12-23 | Defaulting a defaulted institution again changes nothing. |
| DataService.IndexIdempotent | services/dataService.ts:8-51 | With the same clock, indexing the serialized output gives the same bundle and draws no ids, whatever the id source. |
| DataService.ImportBackup | services/dataService.ts:64-79 | Succeeds iff the text parsed and the indexer accepts it. Every failure is the single invalid-backup message. Success returns the indexed bundle. |
| SyncHub.FindByCpf | components/SyncHub.tsx:69 | `findIndex` by `cpf ===`: the first matching position with no match before it, or none at all. It throws iff the scan reaches a null entry before any match, or the incoming resident is null and the list is not empty. |
| SyncHub.NullBeforeMatchThrows | components/SyncHub.tsx:69 | `[null, {cpf: "1"}]` searched for cpf "1" throws, although a later entry matches. |
| SyncHub.MergeOne | components/SyncHub.tsx:68-77 | Either the first entry with the same cpf becomes the field union in which the incoming record wins and `updated` grows by one, or the resident is appended and `added` grows by one. Identities of existing positions are kept. |
| SyncHub.MergeResidents | components/SyncHub.tsx:64-77 | added + updated = number of incoming residents, and merged length = local length + added. Every local position keeps its cpf. Succeeds whenever nothing is null. |
| SyncHub.MergeKeepsUnmatched | components/SyncHub.tsx:64-77 | A local entry no incoming resident matches stays unchanged at its position. |
| SyncHub.MergePreservesDistinctCpfs | components/SyncHub.tsx:68-77 | If the local cpfs are pairwise distinct under `===`, so are the merged ones. |
| SyncHub.MergeCoversIncoming | components/SyncHub.tsx:68-77 | Every incoming resident with a comparable cpf has a merged entry carrying that cpf. |
| SyncHub.MergeCollapsesDuplicates | components/SyncHub.tsx:68-77 | With distinct local cpfs, each comparable incoming resident matches exactly one merged entry, so incoming duplicates collapse. |
| SyncHub.FindAddress | components/SyncHub.tsx:81 | `find` by street and number: the first matching position with no match before it, or none at all. It throws iff the scan reaches a null entry before any match, or the incoming territory is null and the list is not empty. |
| SyncHub.FalsyFirstMatchPushed | components/SyncHub.tsx:81-83 | When the first entry with the address is falsy (`0` with no street or number), `find` returns it and the incoming territory is still appended. |
| SyncHub.AddTerritory | components/SyncHub.tsx:80-83 | Existing entries are never touched. The incoming territory is appended iff no entry present has the same street and number. |
| SyncHub.MergeTerritories | components/SyncHub.tsx:79-84 | The local list is a prefix of the result, and at most one entry is added per incoming territory. |
| SyncHub.MergeTerritoriesDistinct | components/SyncHub.tsx:79-84 | Address uniqueness is preserved, including among appended incoming territories. |
| SyncHub.MergeTerritoriesCover | components/SyncHub.tsx:79-84 | Every incoming territory with a comparable address is represented by some entry. |
| SyncHub.TerritoryDeduplicated | components/SyncHub.tsx:81-83 | A known street and number arriving again leaves the list unchanged. |
| SyncHub.HandleSyncFile | components/SyncHub.tsx:56-86 | A parse failure is an error, and missing or non-array residents give "incompatible format". It succeeds iff the residents merge and the territories are absent, null or an array that merges. On success `onMerge` receives exactly the residents and counters of `MergeResidents`, and the result of `MergeTerritories` (or the local list when territories are absent). |
| SyncHub.SyncKeepsDistinctCpfs | components/SyncHub.tsx:64-86 | If the local cpfs are pairwise distinct, so are those of the residents passed to `onMerge`. |
| SyncHub.ExportFileName | components/SyncHub.tsx:33 | The name is `coleta_estacao_`, the city with each whitespace run as one `_`, `_`, the date part of the clock, and `.json`. |
| SyncHub.ExportFileNameNoSpace | components/SyncHub.tsx:33 | With an ISO clock value, the file name contains no whitespace whatever the city, because whitespace runs become `_`. |
| SyncHub.ExportIndexed | components/SyncHub.tsx:24-29 | The indexer accepts the export input iff no resident or territory is null. The result has version "2.5", the clock as timestamp, empty agents and logs, and the defaulted institution. Each resident and territory is the indexer's correction of the one at the same position. |
| SyncHub.ExportForServer | components/SyncHub.tsx:21-33 | The package succeeds iff nothing is null and the city is a string. Its bundle is exactly the indexer's output for the export input, with the version, timestamp, empty blocks, institution and per-record corrections stated above. Its file name is the city/date name. |
| PersonForm.Load | components/PersonForm.tsx:53-71 | An opened record is shown read-only, with its fields kept and only the eight optional fields defaulted when falsy. A new record with no head yet gets HEAD and is editable. Otherwise the state is unchanged. |
| PersonForm.NewRecordPreselectsHead | components/PersonForm.tsx:67-70 | A new record in a household without a head starts as HEAD and editable. With a head, it does not. |
| PersonForm.LoadIdempotent | components/PersonForm.tsx:54-66 | Loading the loaded record again gives the same state. |
| PersonForm.Validate | components/PersonForm.tsx:73-87 | Name error iff the trimmed name has fewer than 3 UTF-16 code units, as JavaScript `.length` counts them. Cpf error iff it has fewer than 11 digits. Birth date and relationship errors iff falsy. Street and neighborhood errors iff HEAD and blank after trimming. |
| PersonForm.TwoEmojiNameAccepted | components/PersonForm.tsx:77 | A name of two emoji is long enough, because each counts as two code units. |
| PersonForm.IsValid | components/PersonForm.tsx:88-96 | `validate()` is true iff all six tests pass. |
| PersonForm.BlankFormErrors | components/PersonForm.tsx:73-87 | The blank form reports name, cpf, birth date and relationship, and no address. |
| PersonForm.HeadFormErrors | components/PersonForm.tsx:67-87 | Once HEAD is preselected, the new form reports the address instead of the relationship. |
| PersonForm.EmptyFieldErrors | components/PersonForm.tsx:77-86 | With the text fields empty, the address errors appear exactly for a head. |
| PersonForm.CpfSeparatorsIgnored | components/PersonForm.tsx:78 | Two cpfs with the same digits get the same verdict, whatever their separators. |
| PersonForm.Payload | components/PersonForm.tsx:122 | The submitted record is the form with `id` = the opened record's id when truthy, else one fresh draw. Every other field is the form's. |
| PersonForm.Submit | components/PersonForm.tsx:118-124 | Nothing happens in read-only mode. An invalid form is rejected with its non-empty error set and nothing is sent. A record is submitted iff the form is editable and valid. |
| PersonForm.EnabledOptionsKeepOneHead | components/PersonForm.tsx:200 | While a head exists, no enabled choice makes a non-head record HEAD. |
| Reports.Age | components/Reports.tsx:43-51 | 0 for an empty date. NaN (None) iff a non-empty date cannot be parsed. Otherwise exactly the number of anniversaries of the birth date reached by today. |
| Reports.CompletedUnique | components/Reports.tsx:43-51 | That number is unique, so the age is determined by the two dates. |
| Reports.Filtered | components/Reports.tsx:53-74 | A resident is in the result iff it is listed and passes all eight tests. The result is never longer than the input. |
| Reports.FilteredInOrder | components/Reports.tsx:53-74 | The result is the residents at strictly increasing positions, and every position skipped holds a resident that fails. |
| Reports.InitialFiltersKeepAll | components/Reports.tsx:11-22 | With the initial filters the report lists every resident, in order. |
| Reports.QueryCaseIgnored | components/Reports.tsx:60-63 | Letter case in the rg, neighborhood, street and school filters makes no difference. |
| Reports.AgeBoundsInclusive | components/Reports.tsx:70 | With both bounds typed, exactly the ages in [min, max] pass. A NaN age passes neither bound. |
| Reports.UnreadableBirthDateDropped | components/Reports.tsx:54-70 | A resident whose non-empty birth date cannot be parsed is dropped as soon as either age bound is typed. |
| Reports.FindUnit | components/Reports.tsx:81 | `groups[key]`: the unit stored under the key, or none has it. |
| Reports.GroupPartition | components/Reports.tsx:77-88 | Grouping is a partition: keys are distinct, and each unit holds exactly the residents with its key, in order, and shows its first member's address. Every resident has a unit, and sizes sum to the resident count. |
| Reports.GroupSeenInOrder | components/Reports.tsx:77-90 | `Object.values(groups)` order: the units appear in strictly increasing order of the position where their key first occurs, and every unit's key occurs. |
| Reports.AddMemberPartition | components/Reports.tsx:80-87 | Adding one resident, to its unit or to a new unit at the end, keeps the partition. |
| Reports.SortBySize | components/Reports.tsx:90 | The sort is a permutation of the units. |
| Reports.SortNonIncreasing | components/Reports.tsx:90 | Unit sizes never increase along the sorted list. |
| Reports.SortStable | components/Reports.tsx:90 | Units of equal size keep their relative order. |
| Reports.FamilyUnitsPartition | components/Reports.tsx:76-91 | The ordered units partition the filtered residents by lower-cased address key, largest first. |
| Reports.FamilyUnitsStable | components/Reports.tsx:76-91 | Units of equal size keep their order from the grouping, so their addresses appear in the order first seen among the filtered residents. |
| Reports.RoundDiv | components/Reports.tsx:100-103 | `Math.round(n / d)`: the integer nearest to n/d, with halves rounded up. |
| Reports.ComputeStats | components/Reports.tsx:93-107 | All zero for an empty list. Otherwise students and heads are counts bounded by the list length, and the percentage is the rounded quotient. The average age is NaN iff the age sum is NaN, and otherwise the rounded mean. |
| Reports.FilteredPercentage | components/Reports.tsx:100 | The percentage of a filtered list lies in [0, 100]. |
| Reports.AverageAgeBounded | components/Reports.tsx:97-103 | When every filtered age is a number, the average age is a number between the youngest and oldest ages. |
| Reports.AverageAgeNaN | components/Reports.tsx:97-103 | One filtered resident with an unreadable birth date makes the average age NaN. |
| ExportService.Cells | services/exportService.ts:10-23 | Twelve cells per resident. Name, relationship, cpf, rg and birth date print as `String(v)`: a string as itself, an absent value as "undefined". Civil status, neighborhood, city, school, grade and reason print "" when falsy (also when `education` is missing) and a truthy string as itself. "Estudando" is "Sim" iff `education.isStudying` is truthy, else "Não". |
| ExportService.Quote | services/exportService.ts:27 | A written cell starts and ends with a double quote. |
| ExportService.QuotedField | services/exportService.ts:27 | Reading a quoted cell strips the outer quotes and collapses doubled quotes, giving back the cell text. |
| ExportService.Table | services/exportService.ts:5-23 | The expected table is the twelve header labels, then each resident's twelve cells, in order. |
| ExportService.ReadTable | services/exportService.ts:25-28 | An unquoted header line followed by quoted data lines, joined by LF, reads back as the labels and the rows. |
| ExportService.ExportRoundTrip | services/exportService.ts:4-30 | Reading the exported file gives exactly the header labels followed by every resident's cells, in order, so quotes, commas and line feeds inside a cell survive. |
| ExportService.ExportShape | services/exportService.ts:10-30 | The export has one record per resident after the header, each of twelve cells. |
| Text.Trim | components/PersonForm.tsx:77 | `trim()` is empty iff the text is all whitespace. Otherwise it starts and ends with a non-space. |
| Text.BlankHasNoDigits | components/PersonForm.tsx:78 | An all-whitespace cpf has no digits, so the `!cpf.trim()` test adds nothing to the digit count test. |
| Text.CollapseSpaces | components/SyncHub.tsx:33 | `replace(/\s+/g, '_')` leaves no whitespace and never lengthens the text. |
| Text.CollapseRun | components/SyncHub.tsx:33 | `replace(/\s+/g, '_')` turns each maximal whitespace run into exactly one `_` and leaves the text around it unchanged. |
| Text.LowerStrIdempotent | components/Reports.tsx:60-63 | Lower-casing twice is lower-casing once. |
| Text.ParseIntRoundTrip | components/Reports.tsx:70 | `parseInt` of a printed integer gives the integer back. |

## Left out

- I/O is left out: FileReader, `file.text()`, Blob, object URLs, anchor clicks, `JSON.stringify` formatting and `encodeURIComponent`. The parse is an `Option` input (None when `JSON.parse` throws), and the serialized bundle is its field map.
- The PDF export (`exportToPDF`) is left out, because it calls a foreign library.
- Status messages, logging callbacks, `setIsProcessing`, the input reset and the scroll-into-view side effect of `validate` are left out. The counters and outcomes they report are modelled.
- `handleInputChange` is left out, because it is UI editing glue outside the named operations.
- The error messages of `validate` are left out. The model returns the set of fields in error.
- Date parsing and time zones in `getAge` are left out. `new Date("YYYY-MM-DD")` is read in UTC, so the day can shift west of UTC. The model takes the parser as a parameter, including whether a string parses at all.
- DataService.CapLogs: when the 1000th code unit is the first half of a surrogate pair, JavaScript keeps that lone half. A Dafny character cannot hold a lone surrogate, so the model leaves the whole character out, and its string is one unit shorter there.
- DataService.FixResident: the birth-date default and the timestamp share one clock value. The source reads the clock twice.
- SyncHub.ExportForServer: one clock value is both the indexer's timestamp and the file-name date. The source reads the clock separately at services/dataService.ts:11 and components/SyncHub.tsx:33.
- DataService.FixAgent: the username's random part is `substr(2, 4)`, four characters where an id takes nine. Both come from the one token source here.
- DataService.Index: spreading a string or an array copies index keys in JavaScript. The model's spread of a non-object copies no fields.
- SyncHub.MergeOne: the same spread builds `{...existing, ...incoming}`. An incoming string such as "abc" matches a local entry without a cpf, since both cpfs are `undefined`. JavaScript then adds the keys 0 to 2, and the model adds none.
- DataService.Index: ids are non-empty tokens. `Math.random().toString(36).substr(2, 9)` can be empty in the source, in which case it would be falsy.
- DataService.IndexedResidentsComplete: birthDate is stated truthy only when the clock's date part is non-empty, which is all the code guarantees.
- SyncHub.HandleSyncFile: the text of a runtime TypeError is not modelled. Such failures are one `ScriptError`.
- Json.Show: numbers are integers, so JavaScript's printing of fractional and exponent forms is left out.
- Text.LowerStr: only Basic Latin and Latin-1 capitals are lower-cased. Other scripts' case mappings are left out.
- Reports.ComputeStats: `Math.round` over floating-point quotients is modelled as exact rational rounding (`RoundDiv`), with no binary rounding error.
- Reports.View: a resident's text field that is not a string reads as "". The source would throw on `name.toLowerCase()` for a missing name.
- Reports.Filters: the `civilStatus` filter is kept in the data but never applied, as in the source.
- PersonForm.Validate: `Readable` requires name and cpf to be strings. For a head it also requires the address fields to be strings or absent. The source throws otherwise.
- ExportService.CsvFile: the data are records, so a `null` element (which would make `p.name` throw) is not representable.
