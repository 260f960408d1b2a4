# WebScan worker — a Dafny model of its scanning core

WebScan's worker takes a repository on a hosting service and walks its folder
tree. It downloads every dependency file it can parse (`package-lock.json` and
`requirements.txt`), turns each file into a list of packages, and asks the OSV
vulnerability database about those packages in batches. It then hydrates the
vulnerability ids the database returns into full records and groups records
that are aliases of one another. Finally it completes the per-file report and
counts the vulnerabilities by severity band before storing them.

This project models that core in Dafny, one module per source file:

| module | source |
|---|---|
| `Common` | Go library behaviour the core leans on: `strings.Index`, `strings.Cut`, `strings.TrimSpace`, lexicographic order, sorting and compaction of strings, `Option`/`Result` |
| `Models` | the shared records: package details, lock files, dependency files |
| `Walker` | `src/osvscanner/gitParser/gitParser.go` |
| `Extractor` | `src/osvscanner/gitParser/extractor.go` |
| `Requirements` | `src/osvscanner/gitParser/parse_requirements_txt.go` |
| `NpmLock` | `src/osvscanner/gitParser/parse_npm_lock.go` |
| `Osv` | `src/osvscanner/osv/osv.go` |
| `Scanner` | `src/osvscanner/osv_scanner.go` |
| `Grouper` | `src/osvscanner/grouper/grouper.go` |
| `Results` | `src/osvscanner/models/results.go` |
| `Assembly` | the report-completion and severity-counting loops of `main.go` |
| `LegacyExtractor` | `osvscanner/gitParser/extractor.go`, the older copy of the extractor |
| `LegacyScanner` | `osvscanner/osv_scanner.go`, the older copy of the scanner |

Everything outside the program is a parameter. This covers:

- the hosting service's folder listings and downloads;
- the JSON decoder;
- the URL parser;
- the HTTP transport of the OSV client;
- the OSV `get` call;
- `strconv.ParseFloat`.

Every property is therefore proved for every behaviour of those parameters.
Loops that update variables are methods proved against specification functions. The
group labels and the package sort work in place on `array`s, as the Go code
does. Go panics (an index out of range, a slice bound out of range) are
modelled as `Failure` results carrying the runtime's message (for the slice
bound, without the bounds it appends), which then travel like ordinary
errors; Go instead unwinds the request handler. "## Left out" lists what
this does not capture, and two panics that are not represented at all.

## Model

| member | source | states |
|---|---|---|
| `Walker.GetFunctions` | src/osvscanner/gitParser/gitParser.go:22-39 | Only the service "github" has a getter and a downloader. Any other name fails with "unsupported service". |
| `Walker.AllowedNames` | src/osvscanner/gitParser/gitParser.go:30 | The allowed file names are exactly the parser registry's keys, `package-lock.json` and `requirements.txt`. |
| `Walker.DownloadsIff` | src/osvscanner/gitParser/gitParser.go:50-60 | Downloading a list of files succeeds iff every single download succeeds. The result then has one downloaded entry per file, in order. |
| `Walker.DownloadsAppend` | src/osvscanner/gitParser/gitParser.go:50-60 | Downloading a concatenation is downloading each part and concatenating, with the first failure winning. |
| `Walker.WalkDownloadsMatching` | src/osvscanner/gitParser/gitParser.go:42-73 | When every folder lists, the walk is the download of the allowed files of the tree, in pre-order: a folder's own files first, then each sub-folder in listing order. |
| `Walker.UnlistedFails` | src/osvscanner/gitParser/gitParser.go:44-47 | If any folder in the tree cannot be listed, the whole walk fails. |
| `Walker.WalkResult` | src/osvscanner/gitParser/gitParser.go:42-73 | The walk succeeds iff every folder lists and every allowed file downloads. Its files are then exactly the downloads of the allowed files, one for one and in tree order. |
| `Walker.MatchingAllowed` | src/osvscanner/gitParser/gitParser.go:51-53 | Every file the walk collects has an allowed name. |
| `Walker.WalkAllFailureSticks` | src/osvscanner/gitParser/gitParser.go:63-69 | Once a sub-folder's walk fails, the walk over the remaining sub-folders returns that first error. |
| `Walker.DownloadAllowed` | src/osvscanner/gitParser/gitParser.go:50-60 | The files loop keeps only allowed names and downloads them. It returns the first download error with no files, or all the downloads. |
| `Walker.RecursiveParseDirs` | src/osvscanner/gitParser/gitParser.go:42-73 | The recursive walk returns no error iff the specification walk succeeds, with the same files. On an error it returns no files and that error. |
| `Walker.GetFilesFromRepository` | src/osvscanner/gitParser/gitParser.go:75-87 | An unsupported service gives no files and "unsupported service". For github, the result is the walk from the root folder "/". |
| `Extractor.FindParser` | src/osvscanner/gitParser/extractor.go:11-20 | A parser is found iff the file's base name is `package-lock.json` or `requirements.txt`. The npm parser belongs to the former. The name is always returned. |
| `Extractor.FindParserIgnoresPath` | src/osvscanner/gitParser/extractor.go:11-15 | The parser depends on the file name only, never on its path or content. |
| `Extractor.InOrderIff` | src/osvscanner/gitParser/extractor.go:47-53 | The sort's order is by name, then by version, lexicographically. |
| `Extractor.InOrderTransitive` | src/osvscanner/gitParser/extractor.go:47-53 | That order is transitive. |
| `Extractor.InOrderTotal` | src/osvscanner/gitParser/extractor.go:47-53 | That order is total, so any two packages can be put in order. |
| `Extractor.SortPackages` | src/osvscanner/gitParser/extractor.go:47-53 | Sorting the package array in place leaves it ordered by (name, version) and a permutation of what it held. |
| `Extractor.InsertAt` | src/osvscanner/gitParser/extractor.go:47-53 | One insertion step extends the sorted prefix by one element and permutes the array. |
| `Extractor.SortedPackages` | src/osvscanner/gitParser/extractor.go:47-53 | The sorted copy is ordered and a permutation of its input. |
| `Extractor.PermutedListsValues` | src/osvscanner/gitParser/extractor.go:47-53 | Reordering the list of a map's values still lists exactly that map's values, each once. |
| `Extractor.ExtractDeps` | src/osvscanner/gitParser/extractor.go:31-60 | Several cases: <br>• **Error or not:** no error iff a parser is registered for the name and, for `package-lock.json`, the content decodes and `parseNpmLock` does not panic (`Extractor.Extracts`). <br>• **No parser:** an empty lock file and the "no parser found for lock file" error naming the path. <br>• **Otherwise:** a lock file labelled with the path and the parser name, its packages sorted. <br>• **`requirements.txt`:** never fails, and lists exactly the parsed requirements. <br>• **`package-lock.json`:** undecodable content gives the wrapped "could not extract" error and no packages; a v2 lock file never fails; every package is npm; on success the packages are a reordering of the records of a map `parseNpmLock` may build, each once (`Extractor.NpmListed`). <br>• **Error value:** any error is exactly `Extractor.ExtractError`: the no-parser error, the wrapped "could not extract" error, or the wrapped slice-bounds panic. |
| `Requirements.LinesUnlines` | src/osvscanner/gitParser/parse_requirements_txt.go:118-120 | Splitting the content into lines undoes joining lines that hold no newline and end in no carriage return. |
| `Requirements.LineContinuationOdd` | src/osvscanner/gitParser/parse_requirements_txt.go:97-101 | A line continues iff it ends in an odd number of backslashes. |
| `Requirements.ContinuationEndsInBackslash` | src/osvscanner/gitParser/parse_requirements_txt.go:97-101 | A continued line ends in a backslash. |
| `Requirements.StripEndsContinuation` | src/osvscanner/gitParser/parse_requirements_txt.go:122-128 | Removing one trailing backslash from a continued line leaves a line that no longer continues. |
| `Requirements.ContinueEnds` | src/osvscanner/gitParser/parse_requirements_txt.go:122-128 | Joining continuation lines yields a line that does not continue, and consumes a prefix of the remaining lines. |
| `Requirements.RemoveCommentsNoComment` | src/osvscanner/gitParser/parse_requirements_txt.go:77-81 | A line with no comment opener is only trimmed. |
| `Requirements.CommentLineSkipped` | src/osvscanner/gitParser/parse_requirements_txt.go:77-94 | A line whose first non-space character is '#' becomes empty and is skipped. |
| `Requirements.RemoveCommentsNoOpener` | src/osvscanner/gitParser/parse_requirements_txt.go:77-81 | After comment removal, no '#' that is preceded by whitespace remains. |
| `Requirements.NormalizedRequirementName` | src/osvscanner/gitParser/parse_requirements_txt.go:67-74 | A normalised name is lower case, holds no '_' or '.', and has no two dashes in a row. |
| `Requirements.CollapseShape` | src/osvscanner/gitParser/parse_requirements_txt.go:67-74 | Collapsing runs of `-_.` leaves no '_' or '.' and no double dash. |
| `Requirements.CollapseIdentity` | src/osvscanner/gitParser/parse_requirements_txt.go:67-74 | A string that is already collapsed is unchanged. |
| `Requirements.NormalizedIdempotent` | src/osvscanner/gitParser/parse_requirements_txt.go:67-74 | Normalising twice is the same as normalising once. |
| `Requirements.ConstraintPriority` | src/osvscanner/gitParser/parse_requirements_txt.go:18-38 | The operator is chosen in the order `!=`, `~=`, `>=`, `==`. None is chosen iff the line contains none of them, and the chosen one occurs in the line. |
| `Requirements.ParseLine` | src/osvscanner/gitParser/parse_requirements_txt.go:17-54 | Every parsed line is a PyPI package, compared as PyPI, with a normalised name, no commit and no groups. |
| `Requirements.ParseLineNoOperator` | src/osvscanner/gitParser/parse_requirements_txt.go:17-54 | Without an operator, the whole line is the name and the version is "0.0.0". |
| `Requirements.ParseLineWithOperator` | src/osvscanner/gitParser/parse_requirements_txt.go:17-54 | With an operator, the name is the normalised text before its first occurrence. For `!=` the version is "0.0.0". Otherwise it is the first space-free word after the operator. |
| `Requirements.BuildFirstOccurrence` | src/osvscanner/gitParser/parse_requirements_txt.go:136-145 | The map holds exactly the keys of the parsed lines. The first line with a key wins, tagged with the file's group. |
| `Requirements.RequirementsGroupTag` | src/osvscanner/gitParser/parse_requirements_txt.go:105-145 | Every requirement carries the file's group tag and the PyPI ecosystem. |
| `Requirements.ParseRequirementsTxt` | src/osvscanner/gitParser/parse_requirements_txt.go:104-153 | The returned list holds each parsed requirement exactly once, one per distinct name@version key. |
| `Requirements.ScanLines` | src/osvscanner/gitParser/parse_requirements_txt.go:118-146 | The scanner loop builds the map of the logical lines' requirements. |
| `Requirements.JoinContinued` | src/osvscanner/gitParser/parse_requirements_txt.go:122-128 | The continuation loop joins exactly the lines the specification joins. |
| `NpmLock.DependencyGroupsFlags` | src/osvscanner/gitParser/parse_npm_lock.go:55-67 | A v1 dependency is in "dev" iff it is flagged dev, and in "optional" iff it is flagged optional, in that order. |
| `NpmLock.PackageGroupsPriority` | src/osvscanner/gitParser/parse_npm_lock.go:70-82 | A v2 package's groups are as follows: "dev" iff it is dev, or devOptional but not optional. "optional" iff it is not dev and is optional or devOptional. No group iff no flag is set. |
| `NpmLock.BaseOfElement` | src/osvscanner/gitParser/parse_npm_lock.go:137-146 | The base and the directory of a path split at its last slash. |
| `NpmLock.ExtractScopedName` | src/osvscanner/gitParser/parse_npm_lock.go:137-146 | A package under an `@scope` folder keeps the scope in its name; otherwise only the last element is kept. |
| `NpmLock.ExtractTopLevelName` | src/osvscanner/gitParser/parse_npm_lock.go:137-146 | A package directly under an unscoped folder is named by its last element. |
| `NpmLock.FirstCapture` | src/osvscanner/gitParser/parse_npm_lock.go:201-255 | A commit is captured iff some pattern matches, and it is that pattern's capture. |
| `NpmLock.FirstCaptureLeast` | src/osvscanner/gitParser/parse_npm_lock.go:219-226 | The first pattern that matches wins. |
| `NpmLock.PatternCommitIsSuffix` | src/osvscanner/gitParser/parse_npm_lock.go:201-255 | A commit found by a pattern is a word that ends the resolution. |
| `NpmLock.NoPatternWithoutHashOrSlash` | src/osvscanner/gitParser/parse_npm_lock.go:201-255 | A resolution with neither '#' nor '/' is decided by its parsed URL alone. |
| `NpmLock.HostCommitNeedsGitHost` | src/osvscanner/gitParser/parse_npm_lock.go:228-252 | A commit taken from a URL comes only from bitbucket.org, github.com or gitlab.com. |
| `NpmLock.TryExtractCommit` | src/osvscanner/gitParser/parse_npm_lock.go:201-255 | The commit extraction returns the specification's commit. |
| `NpmLock.ParseNpmLockPackages` | src/osvscanner/gitParser/parse_npm_lock.go:149-187 | Every non-root v2 package yields an entry. Every entry comes from some package. |
| `NpmLock.ParseNpmLockDependencies` | src/osvscanner/gitParser/parse_npm_lock.go:85-134 | Parsing the v1 tree succeeds iff no reachable dependency panics, and a failure is the slice-bounds panic. Then every reachable dependency's key is present and every entry comes from the tree. An entry's record survives only if no ancestor between it and the top has the same key (`NpmLock.Wins`), because the nested map is copied in before the entry's own record is written. |
| `NpmLock.ParentRecordWins` | src/osvscanner/gitParser/parse_npm_lock.go:88-131 | A dependency whose nested tree holds an entry under its own key keeps its own record: with a single top-level entry, whatever wins under that entry's key is that entry's record. |
| `NpmLock.ParseNpmLockfile` | src/osvscanner/gitParser/parse_npm_lock.go:190-198 | The v2 `packages` map is used when present and never fails. Otherwise the v1 tree is used, and it fails exactly when some entry of the tree panics (`NpmLock.Parses`). A failure is the slice-bounds panic. The map returned is one `parseNpmLock` may build in some iteration order (`NpmLock.Parsed`): in a v1 tree a nested record never replaces an ancestor's record under the same key. Every entry comes from the lock file. |
| `NpmLock.EmittedIsNpm` | src/osvscanner/gitParser/parse_npm_lock.go:85-187 | Every package parsed from a lock file is an npm package compared as npm. |
| `NpmLock.DependencyEntryVersion` | src/osvscanner/gitParser/parse_npm_lock.go:95-130 | A `file:` dependency has no version and no commit. A dependency with a commit has no version and is keyed name@commit. |
| `NpmLock.AliasEntry` | src/osvscanner/gitParser/parse_npm_lock.go:99-104 | An `npm:alias@version` dependency is recorded under the alias and that version. |
| `NpmLock.AliasPanics` | src/osvscanner/gitParser/parse_npm_lock.go:100-104 | An `npm:` version with no '@' after the prefix panics on the slice bound. |
| `NpmLock.ParseNpmLock` | src/osvscanner/gitParser/parse_npm_lock.go:259-279 | Undecodable content fails with "could not extract from <path>". Decoded content fails exactly when `parseNpmLock` panics, with the slice-bounds message, so a v2 lock file succeeds. On success the packages are the values of a map `parseNpmLock` may build (`NpmLock.Parsed`), read under its keys listed once each in some order. Every package is npm. |
| `Osv.MakePkgRequest` | src/osvscanner/osv/osv.go:104-124 | A package without an ecosystem is queried by repository URL (its name). Otherwise it is queried by name, ecosystem and version. Groups are carried in the metadata. |
| `Osv.MakePkgRequestInjective` | src/osvscanner/osv/osv.go:104-124 | For packages with an ecosystem, two queries are equal iff name, ecosystem, version and groups are. |
| `Osv.ChunksConcat` | src/osvscanner/osv/osv.go:126-133 | Concatenating the chunks gives back the items. |
| `Osv.ChunksSizes` | src/osvscanner/osv/osv.go:126-133 | Every chunk but the last is full. The last chunk is non-empty unless there were no items. |
| `Osv.ChunksCount` | src/osvscanner/osv/osv.go:126-133 | The number of chunks is the ceiling of items divided by size, or one for no items. |
| `Osv.ChunksExample` | src/osvscanner/osv/osv.go:18-33 | 2500 queries go out as chunks of 1000, 1000 and 500. |
| `Osv.ChunkBy` | src/osvscanner/osv/osv.go:126-133 | The chunking loop returns the specification's chunks. |
| `Osv.CheckResponseError` | src/osvscanner/osv/osv.go:136-148 | A response is an error iff its status is not 200. |
| `Osv.Attempts` | src/osvscanner/osv/osv.go:276-294 | Between one and four attempts are made. |
| `Osv.AttemptsStop` | src/osvscanner/osv/osv.go:276-294 | Attempts stop at the first success. Every earlier attempt failed. |
| `Osv.RetrySucceedsIff` | src/osvscanner/osv/osv.go:276-294 | The retried request succeeds iff one of the first four attempts succeeds. |
| `Osv.MakeRetryRequest` | src/osvscanner/osv/osv.go:276-294 | The retry loop returns the specification's outcome. Before attempt i it waits i² seconds. |
| `Osv.CollectSucceedsIff` | src/osvscanner/osv/osv.go:151-193 | The batched request succeeds iff every chunk's request succeeds. |
| `Osv.CollectValue` | src/osvscanner/osv/osv.go:151-193 | A successful request's results are the chunks' results concatenated in chunk order. |
| `Osv.MakeRequest` | src/osvscanner/osv/osv.go:151-193 | The request loop sends one retried request per chunk of 1000 and returns the specification's outcome. |
| `Osv.Hydrate` | src/osvscanner/osv/osv.go:230-273 | Hydration succeeds iff every id's `get` succeeds. Then it keeps the shape of the batch response and puts each id's record in its place. On failure it returns one of the `get` errors. |
| `Osv.HydrateBatch` | src/osvscanner/osv/osv.go:243-258 | The same as `Osv.Hydrate`, for one batch of ids. |
| `Scanner.Roundup` | src/osvscanner/osv_scanner.go:24-27 | The score is rounded up to the next tenth: never below the score and less than 0.1 above it. |
| `Scanner.ParseSeverityCategory` | src/osvscanner/osv_scanner.go:29-43 | Every score falls into "Low", "Moderate" or "High". |
| `Scanner.SeverityBands` | src/osvscanner/osv_scanner.go:29-43 | After rounding up, a score in (-0.1, 3.9] is "Low" and one in (3.9, 6.9] is "Moderate". Everything else is "High", including scores above 10 and at or below -0.1. |
| `Scanner.SeverityExamples` | src/osvscanner/osv_scanner.go:29-43 | 3.9 is Low; 3.91 and 4.0 are Moderate; 10 and 11 are High. |
| `Scanner.SeverityMonotone` | src/osvscanner/osv_scanner.go:29-43 | On 0 to 10 the band never decreases as the score grows. |
| `Scanner.ToScanned` | src/osvscanner/osv_scanner.go:65-77 | One scanned package per parsed package, carrying its name, version, ecosystem and groups, with the source "lockfile" at the file's path. |
| `Scanner.ScanLockfile` | src/osvscanner/osv_scanner.go:46-80 | Succeeds iff the extractor returns no error (`Extractor.Extracts`). The packages are then the scanned forms, in order, of a package list the extractor may return (`Extractor.Extracted`). Any failure is the extractor's error, unchanged (`Extractor.ExtractError`): an unknown file gives the no-parser error, and undecodable npm content gives the wrapped "could not extract from <path>" error. A requirements file yields one package per parsed requirement. Every package is tagged with its file as a lockfile source. |
| `Scanner.FilterUnscannablePackages` | src/osvscanner/osv_scanner.go:121-134 | Exactly the packages with an ecosystem, a name and a version are kept, in order. |
| `Scanner.BuildQueries` | src/osvscanner/osv_scanner.go:139-151 | Building queries fails iff some package lacks an ecosystem, name or version. Otherwise there is one name/ecosystem/version query per package, in order, with no groups. |
| `Scanner.ApiErrorIsNotIdentityError` | src/osvscanner/osv_scanner.go:149-164 | An API failure can never be mistaken for the missing-identifier error. |
| `Scanner.MakeRequest` | src/osvscanner/osv_scanner.go:137-168 | An unscannable package gives the identifier error and nothing else does. For scannable packages the answer meets `Scanner.Answered`. If the chunked batch request fails, the answer is `ErrAPIFailed` + ": ошибка запроса к osv.dev: " + its error. Otherwise it succeeds iff every id's fetch succeeds, and then has the batch's shape with each id's record in its place. A failed fetch gives `ErrAPIFailed` + ": ошибка упаковки OSV ответа: " + that fetch's error. |
| `Scanner.ScanFiles` | src/osvscanner/osv_scanner.go:84-98 | Succeeds iff every file scans (`Scanner.Scans`). A failure carries the error of the first file that does not scan, every earlier file having scanned (`Scanner.FirstFailure`). File i then gave `perFile[i]`, a result `scanLockfile` may return for it (`Scanner.ScannedFrom`). The packages are those results concatenated in file order. No files gives no packages, and every package comes from one of the files, as a lockfile source. |
| `Scanner.DoScan` | src/osvscanner/osv_scanner.go:83-118 | Fails if any file does not scan, with the first such file's extraction error (`Scanner.FirstFailure`). Otherwise file i gave `perFile[i]`, as in `Scanner.ScanFiles`. The result is "no packages" exactly when no file gave a package. Else the packages sent are the scannable ones of the concatenation, in order, and the hydrated answer meets `Scanner.Answered` for them, as `Scanner.MakeRequest` returns it. No files gives the empty result. |
| `Grouper.Min` | src/osvscanner/grouper/grouper.go:16-22 | The minimum is one of its arguments and at most both. |
| `Grouper.HasAliasIntersection` | src/osvscanner/grouper/grouper.go:24-33 | Two records intersect iff they share an alias or one names the other's id among its aliases. |
| `Grouper.HasAliasIntersectionSymmetric` | src/osvscanner/grouper/grouper.go:24-33 | Intersection is symmetric. |
| `Grouper.MergedLabelsBounded` | src/osvscanner/grouper/grouper.go:39-55 | Every label is the index of a record at or before the labelled one. |
| `Grouper.LinkedLabel` | src/osvscanner/grouper/grouper.go:47-55 | Of two intersecting records, the later one ends up labelled at or before the earlier one's index. |
| `Grouper.IsolatedKeepsLabel` | src/osvscanner/grouper/grouper.go:39-55 | A record that intersects no other keeps its own index. |
| `Grouper.MergeIsNotTransitive` | src/osvscanner/grouper/grouper.go:47-55 | For A–D sharing x, B–C sharing y and C–D sharing z, the single pass labels them [0,1,0,0]. B and C intersect but end up in different groups. |
| `Grouper.AdvisoryLabels` | src/osvscanner/grouper/grouper.go:47-55 | An advisory naming a CVE id among its aliases is merged with that CVE's record. |
| `Grouper.MergeLabels` | src/osvscanner/grouper/grouper.go:39-55 | The in-place loops over the label array compute the specification's labels. |
| `Grouper.MergeRow` | src/osvscanner/grouper/grouper.go:48-54 | The inner loop for one row computes the specification's row. |
| `Grouper.Extract` | src/osvscanner/grouper/grouper.go:58-63 | The maps have exactly the labels as keys. Each key holds its records' ids and aliases in record order. |
| `Grouper.KeysBelowAscending` | src/osvscanner/grouper/grouper.go:66-67 | The sorted keys ascend strictly. |
| `Grouper.GroupKeysShape` | src/osvscanner/grouper/grouper.go:36-85 | There is one group per distinct label, in ascending label order, and no more groups than records. There are none iff there are no records. Every record's label is among the keys. |
| `Grouper.GroupContents` | src/osvscanner/grouper/grouper.go:69-82 | Each group's ids are sorted, non-empty, and exactly its records' ids. Its aliases are strictly sorted and are exactly the union of its ids and its records' aliases. |
| `Grouper.GroupsCoverRecords` | src/osvscanner/grouper/grouper.go:36-85 | Every record's id is in the group of its label. |
| `Grouper.GroupsPartition` | src/osvscanner/grouper/grouper.go:36-85 | The groups' id counts add up to the number of records, so every record lands in exactly one group. |
| `Grouper.Group` | src/osvscanner/grouper/grouper.go:36-85 | Group returns the groups assembled from the merged labels. |
| `Grouper.ConvertVulnerabilityToIDAliases` | src/osvscanner/grouper/grouper.go:87-98 | One record per vulnerability, in order, carrying its id and aliases. |
| `Results.SourceString` | src/osvscanner/models/results.go:56-58 | The rendering is the type, a colon, then the path. |
| `Results.SourceStringCut` | src/osvscanner/models/results.go:56-58 | When the type has no colon, cutting the rendering at the first colon gives back the type and the path. |
| `Results.IsCalled` | src/osvscanner/models/results.go:80-86 | A group is never reported as called. |
| `Results.IndexString` | src/osvscanner/models/results.go:88-90 | A single id is its own index string. Otherwise the string starts with the first id and a comma. |
| `Results.IndexStringRoundTrip` | src/osvscanner/models/results.go:88-90 | Splitting the index string at commas gives back the ids, when no id contains a comma. |
| `Results.GroupIndex` | src/osvscanner/models/results.go:31-34 | The index is that of the first group containing the id, or -1 when there is none. |
| `Results.GetGroupInfoForVuln` | src/osvscanner/models/results.go:31-34 | The returned group is the first group whose ids contain the vulnerability's id. |
| `Results.Flatten` | src/osvscanner/models/results.go:12-29 | The nested loops produce the specification's flattened view. |
| `Results.FlattenLength` | src/osvscanner/models/results.go:12-29 | The flattened view has one entry per vulnerability, over all sources and packages. |
| `Results.FlattenEntries` | src/osvscanner/models/results.go:12-29 | Every flattened entry carries its own source, package, groups and vulnerability, and a group of that package containing the vulnerability's id. |
| `Results.EcosystemBase` | src/osvscanner/models/results.go:100-102 | The base ecosystem has no colon. An ecosystem with no colon is its own base. |
| `Results.NextKeyIdempotent` | src/osvscanner/models/results.go:100-102 | Truncating the key twice is truncating once. |
| `Results.FixedVersions` | src/osvscanner/models/results.go:92-110 | The loops build the map of all appends, in order. |
| `Results.AppendsFromCount` | src/osvscanner/models/results.go:97-104 | Each event with a fixed version appends it exactly twice; other events append nothing. |
| `Results.AppendsCount` | src/osvscanner/models/results.go:92-110 | The total number of appends is twice the number of fixed events. |
| `Results.CollectValues` | src/osvscanner/models/results.go:92-110 | A key is in the map iff something was appended under it. Its slice is exactly the values appended under it, in order. |
| `Results.AppendsFromTruncates` | src/osvscanner/models/results.go:95-103 | Within one affected entry, the first append goes to the entry's own key and every later append to the truncated key. |
| `Assembly.PathExists` | main.go:119-124 | The inner loop reports exactly whether some result has the file's path as its source. |
| `Assembly.CompleteSources` | main.go:118-135 | The completion loop returns the specification's completed results. |
| `Assembly.CompletedCovers` | main.go:118-135 | The completed results keep the scan's results as a prefix. Every file's path then has a source entry. |
| `Assembly.CompletedAdds` | main.go:126-134 | Each added entry has no packages, is built from some file's path and type, and has a path the scan did not report. |
| `Assembly.CompletedDistinct` | main.go:118-135 | The added entries have pairwise distinct paths. |
| `Assembly.Bump` | main.go:188-204 | Each category increments exactly its own counter, by one. |
| `Assembly.CountPackage` | main.go:176-204 | The vulnerability loop of one package returns the specification's count. |
| `Assembly.CountSource` | main.go:153-204 | The package loop of one source starts with no previous key and returns the specification's count. |
| `Assembly.CountSeverities` | main.go:94-97 | Counting starts at zero and runs over all sources. The result is the specification's count. |
| `Assembly.RunCounts` | main.go:176-204 | Counting a source's visits fails iff some kept visit has a package with no groups (Go's index panic). Otherwise it ends with the last visit's key. It adds exactly one count per kept visit. |
| `Assembly.RunSourcesTotal` | main.go:151-204 | On success, the total of the three counters is the number of kept visits over all sources. |
| `Assembly.AdjacentOnly` | main.go:178-182 | Only adjacent repeats are skipped: (a,a) counts once, and (a,b,a) counts three times. |
| `LegacyExtractor.FindParser` | osvscanner/gitParser/extractor.go:11-38 | In the older copy, only `package-lock.json` has a parser. |
| `LegacyExtractor.FindExtractorIn` | osvscanner/gitParser/extractor.go:54-66 | An explicit extractor name is looked up directly. Otherwise some extractor that accepts the path is returned, or none when no extractor accepts it. |
| `LegacyExtractor.FindExtractor` | osvscanner/gitParser/extractor.go:40-66 | Over the empty registry, no extractor is ever found. |
| `LegacyExtractor.ExtractDeps` | osvscanner/gitParser/extractor.go:71-100 | An unknown file gives the "no parser found for lock file" error naming the path. An npm failure is wrapped, with no packages. Otherwise the result is labelled with the path and name and holds the parsed packages sorted. |
| `LegacyScanner.ToScanned` | osvscanner/osv_scanner.go:45-58 | One scanned package per parsed package, with no purl, carrying its fields, as a lockfile source at the file's path. |
| `LegacyScanner.ScanLockfile` | osvscanner/osv_scanner.go:26-61 | Succeeds iff the file is a `package-lock.json` and the npm parser succeeds. Its packages are then the scanned forms, in order, of a sorted reordering of the parser's packages. An unknown file fails with the extractor's error. An npm failure is wrapped. Any failure is `LegacyScanner.ScanError` of the file. |
| `LegacyScanner.ScannableIff` | osvscanner/osv_scanner.go:103-118 | A package is scannable iff it has a full name/ecosystem/version, or a commit, or a purl. |
| `LegacyScanner.IdentityPriority` | osvscanner/osv_scanner.go:124-140 | A full name/ecosystem/version is preferred to a commit, and a commit to a purl. |
| `LegacyScanner.FilterUnscannablePackages` | osvscanner/osv_scanner.go:103-118 | Exactly the scannable packages are kept, in order. |
| `LegacyScanner.QueryFor` | osvscanner/osv_scanner.go:124-140 | The query kind follows the identity priority. |
| `LegacyScanner.BuildQueries` | osvscanner/osv_scanner.go:120-140 | Building queries succeeds iff every package is scannable, with one query per package in order. Otherwise the error names the first unscannable package, every earlier one being scannable (`LegacyScanner.IdentityFailure`). |
| `LegacyScanner.MakeRequest` | osvscanner/osv_scanner.go:120-157 | An unscannable package fails the request with `LegacyScanner.BuildQueries`' error naming the first such package. Otherwise the result is `LegacyScanner.Outcome` of the packages' queries: the client's query error wrapped as "osv.dev query failed", its hydration error wrapped as "failed to hydrate OSV response", or its hydrated answer. |
| `LegacyScanner.DoScan` | osvscanner/osv_scanner.go:64-99 | Fails if any file is not a `package-lock.json` that parses, with the first such file's scan error (`LegacyScanner.FirstFailure`). Otherwise file i gave `perFile[i]`, a result `scanLockfile` may return for it. Finding no package at all gives "no packages found in scan". Else the result is `LegacyScanner.Answer`: the scannable packages of the concatenation, in order, with the client's outcome for them. Every package sent is scannable, comes from one of the files and has no purl. |

## Left out

- Network and hosting I/O: GitHub's content and download calls (`src/osvscanner/gitParser/github.go`) are not modelled. They become a tree of folder listings fixed in advance plus a `download` function. A listing that changes between calls is not represented.
- `GitHubGetContents`' ".." guard and its split of entries into files and folders are part of `src/osvscanner/gitParser/github.go`, which is not part of this model.
- `GetContent` decoding errors in `DoScan` are ignored by the program. The model takes each file's content as given.
- JSON decoding of lock files and of OSV responses, URL parsing, the HTTP transport and the `GetWithClient` call are function parameters. Their own behaviour is not modelled.
- Concurrency in `HydrateWithClient`: the model fetches the ids one after another. The goroutines, the shared error channel, the rate limit, and the possible deadlock or leak when many fetches fail are not modelled.
- The random jitter in `makeRetryRequest`'s delay is not modelled; only the quadratic base delay is.
- `strconv.ParseFloat` is a parameter. `main.go`:186 parses `MaxSeverity` with bit size 32, so a stored "3.9" becomes 3.9000000953674316, rounds up to 4.0 and is counted as Moderate; the model's scores are exact reals, and neither that 32-bit parse nor float64 rounding in `roundup` is modelled. A `ParseFloat` argument that returns the 32-bit value reproduces it.
- The database's `SeverityType` constants are taken to be the strings "Low", "Moderate" and "High". Their definitions are generated code that is not part of this model.
- Everything `main.go` does with the database and with HTTP is not modelled: creating scans, sources, packages and vulnerabilities, its logging, and its request handler.
- `buildVulnerabilityResults` is not part of this model. `Scanner.DoScan` stops at the hydrated OSV answer.
- Scanner.BuildQueries: the `%v` rendering of the package in `makeRequest`'s error is not modelled; the message is the fixed text without the package.
- LegacyScanner.BuildQueries: the error puts the package's name where Go prints the whole record with `%v`.
- Regular expressions are written as explicit predicates. The `.` of Go's regexp not matching a newline is not modelled.
- `strings.ToLower` is modelled for ASCII letters only.
- Requirements.ParseRequirementsTxt: has no line-length limit. `bufio.Scanner` over a `strings.Reader` fails only with `bufio.ErrTooLong`, on a line longer than 64 KiB. Go then returns no packages and "ошибка в процессе парсинга <path>: …". Content is split at newlines with one trailing carriage return dropped.
- Extractor.ExtractDeps: states that a `requirements.txt` never fails, which holds in Go only when no line is longer than 64 KiB.
- `NpmLock.Dir` implements `path.Dir` without `path.Clean` of "." and ".." elements.
- A nil map and an empty map are not distinguished: an absent `dependencies` field is an empty map.
- Go map iteration order is modelled as an arbitrary choice, and every postcondition holds for every order.
- NpmLock.ParseNpmLockDependencies, NpmLock.ParseNpmLockfile, NpmLock.ParseNpmLock, Extractor.ExtractDeps, Scanner.ScanLockfile, Scanner.ScanFiles, Scanner.DoScan: in a v1 tree where one key is written from several sibling subtrees, the model fixes the winner of each key separately. It states that the winner is a record no ancestor of which shares its key, but not that the winners of different keys come from one common iteration order.
- Panics are modelled as `Failure` results carrying the runtime's message: "runtime error: index out of range [0] with length 0" on `pkg.Groups[0]` in `main.go`, and "runtime error: slice bounds out of range" in `parseNpmLockDependencies`, without the bounds (such as "[:-1]") Go appends there.
- Extractor.ExtractDeps, Extractor.ExtractError, Scanner.ScanLockfile, Scanner.ScanFiles, Scanner.DoScan: the slice-bounds panic of `parseNpmLockDependencies` travels as an ordinary error, wrapped as "ошибка при парсинге: …" and returned by the scan. Go neither wraps nor returns it: the panic unwinds through `ExtractDeps`, `scanLockfile`, `DoScan` and `parseRepo`, which has no `recover`, and aborts the request handler.
- Assembly.RunCounts, Assembly.CountPackage, Assembly.CountSource, Assembly.CountSeverities: the `pkg.Groups[0]` panic is returned as a `Failure`; in Go it aborts the request handler instead.
- Results.GetGroupInfoForVuln: requires the id to be in some group (`InSomeGroup`). Go indexes with -1 and panics otherwise; that panic is not represented. `Results.Flatten` carries the same precondition for every vulnerability.
- NpmLock.ParseNpmLock: a `package-lock.json` whose content is the JSON `null` decodes without error to a nil pointer, and `extract` then panics dereferencing it. The decoder parameter has no such outcome, so this panic is not represented.
- NpmLock.ParseNpmLock: keeps only the "could not extract from <path>" prefix of the decoder's wrapped error.
- LegacyScanner.QueryFor: the older client's `osv.MakePkgRequest` (in `osvscanner/osv`, not part of this model) is taken to build the same query as `Osv.MakePkgRequest`.
- LegacyScanner.ScanLockfile: the older npm parser is a parameter, and a failing parse is taken to return no packages. Go's extractor sorts whatever the parser returned and passes it on with the error (`osvscanner/gitParser/extractor.go`:78-99). `scanLockfile` then returns on the error, so the scan does not see them.
- `osv.MakeDetermineVersionRequest`, `osv.Hydrate`'s default client and `RequestUserAgent` concern only the client setup and are not modelled.
- The comment on `ExtractDeps`' sort speaks of removing duplicates, but the code only sorts. The model sorts and keeps duplicates, as the code does.
- The grouper's merge is a single pass, not a connected-components computation. `Grouper.MergeIsNotTransitive` shows what the code does, and no transitive grouping is claimed.
- `ParseSeverityCategory` maps every score outside the bands to "High", including negative scores at or below -0.1. The model keeps that, and `Scanner.SeverityBands` states it.
