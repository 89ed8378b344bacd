# JSON screenshot reporter for Jasmine, modelled in Dafny

This project models `jasmineJSONScreenshotReporter`, a Jasmine reporter for
Protractor runs. The reporter keeps a registry of the suites and specs it
has seen, merging repeated snapshots of one suite or spec by `id`. It
remembers which suite is running. When a spec finishes, it writes the
spec's record as a JSON file under `e2eReport/<suite>/<browser>/`. Beside
that file it writes a PNG screenshot, unless the capture policy skips the
spec. Folder and file names are made safe by replacing every whitespace
character and every character of `\ / : * ? " < > | .` with `_`.

The model has seven modules:

- `Values` (values.dfy): JavaScript objects as maps from property name to value. It also gives a missing property, `Object.assign`, truthiness and the Date subtraction behind `duration`.
- `Sanitizer` (sanitizer.dfy): `replaceInvalidSymbols`.
- `Paths` (paths.dfy): splitting a path on the separator and joining segments back together.
- `FileSystems` (filesystem.dfy): a filesystem object over a map from resolved paths to entries: `mkdir` and `writeFile` update the map, and `stat` reads it. It also holds `myMkdir`, the recursive directory ensurer, as an imperative loop over that object.
- `Registry` (registry.dfy): `getSuiteClone` and `getSpecClone`, which run the same scan-and-merge over a list. This is one loop, proved against the functions `FirstMatch` and `Upserted`.
- `Policy` (policy.dfy): the option defaults and `skipScreenShotting`.
- `Reporting` (reporter.dfy): the `Reporter` class. It holds the options, the two registries, the running-suite pointer and the filesystem, and has one method per lifecycle handler.
  - `specDone` is proved against the function `SpecDoneEffect`. Lemmas give the outcome when the handler fails (no capabilities, a name that is not a string, or a failing storage step: the folders, the JSON write, the screenshot or the PNG write), and the files and record fields it leaves when it succeeds.

A handler never raises. Any failure inside it goes to the console, and the
fields it had already set stay set. In the model, each handler returns an
`Option<Fault>` for what would reach the console, and its contract states
the partially updated state.

Where the code and its description differ, the model follows the code:

- `captureOnlyFailedSpecs` is defaulted with `opts.captureOnlyFailedSpecs || true`, so it is always truthy, even when the caller passes `false`. As a result a passing spec is never screenshotted (`Policy.SkipUnlessFailed`, `Reporting.ConfiguredRunSkipsUnlessFailed`). Only failed specs get a PNG.
- The JSON file is written before `skipPrinting` is set. The file therefore never carries the `skipPrinting` that the same call sets (`Reporting.SkippedSpecDone`).
- The name `weird/name:*?` has four forbidden characters. It becomes `weird_name___`: one underscore replaces each of them, so three underscores end the name (`Sanitizer.WeirdNameExample`).
- Artifacts go under the fixed folder `e2eReport`, whatever `dest` says (`Reporting.ArtifactsStored`).
- A spec started while no suite is running gets no `suite` field from that call. Unless an earlier call gave it one, a later `specDone` for it fails with `NotAString` once the capabilities are read, when it names the storage folder (`Reporting.SpecDoneNameFaults`).

## Model

| member | source | states |
|---|---|---|
| Values.Assign | index.js:51 | the merged object has the keys of both; the source's properties win, and the target's other properties keep their values |
| Values.ElapsedSeconds | index.js:105-106 | the duration is the time since a Date start in seconds, and NaN when the record was never started |
| Sanitizer.IsSpace | index.js:12 | the `\s` class: no letter, digit or underscore is whitespace |
| Sanitizer.Forbidden | index.js:12 | the regular-expression class of line 12: the separator and the dot are in it; letters, digits and the replacement `_` are not |
| Sanitizer.Sanitize | index.js:10-13 | the result has the same length as the input and contains no forbidden character |
| Sanitizer.SanitizeAt | index.js:10-13 | at each position, a forbidden character becomes one `_` and every other character is kept |
| Sanitizer.SanitizeConcat | index.js:10-13 | sanitising a concatenation is the concatenation of the sanitised parts |
| Sanitizer.SanitizeIdempotent | index.js:10-13 | sanitising twice gives the same result as sanitising once |
| Sanitizer.SanitizeClean | index.js:10-13 | a string with no forbidden character is left unchanged |
| Sanitizer.SanitizedIsOneComponent | index.js:10-13 | a sanitised name contains neither `/` nor `.`, so it is exactly one path component |
| Sanitizer.WeirdNameExample | index.js:10-13 | `weird/name:*?` becomes `weird_name___` |
| Paths.Split | index.js:17 | splitting gives at least one segment, and no segment contains the separator |
| Paths.Join | index.js:21 | `join` on the separator: the joined path starts with the first segment; its round trips with `Split` are `JoinSplit` and `SplitJoin` |
| Paths.JoinSplit | index.js:17-21 | joining the segments of a split gives back the path |
| Paths.SplitPrefix | index.js:17 | splitting `a + t`, where `a` has no separator, glues `a` onto the first segment of `t` |
| Paths.SplitJoin | index.js:20-21 | separator-free segments, once joined, split back into the same segments |
| FileSystems.MakeDir | index.js:23 | `mkdir` succeeds exactly when the path is new, its parent is a directory and creation is not refused; EEXIST is returned exactly when something is already there; a failure changes nothing |
| FileSystems.StatEntry | index.js:26 | `stat` finds an entry exactly when the path exists, and in a well-formed filesystem what it finds lies in a directory |
| FileSystems.WriteTo | index.js:116 | `writeFile` succeeds exactly when the path is not a directory, its parent is a directory and writing is not refused; on success it stores the content; a failure changes nothing |
| FileSystems.EnsureStep | index.js:22-33 | one loop turn keeps the filesystem well formed |
| FileSystems.EnsureFrom | index.js:19-34 | the remaining loop turns keep the filesystem well formed |
| FileSystems.EnsureFromSucceedsIff | index.js:19-34 | from prefix `i` on, the loop succeeds exactly when every later prefix is a directory already, or is absent and creatable |
| FileSystems.EnsureFromResult | index.js:19-34 | after success from prefix `i` on, every later prefix is a directory and every earlier entry is unchanged |
| FileSystems.EnsureFromKeeps | index.js:19-34 | whatever the outcome, every entry that existed before is still there, unchanged |
| FileSystems.EnsureFromAddsPrefixes | index.js:19-34 | the loop adds no entry other than a prefix of the path |
| FileSystems.EnsureFromAllDirs | index.js:25-29 | when every prefix is already a directory, the loop succeeds and changes nothing |
| FileSystems.EnsureSucceedsIff | index.js:15-35 | `myMkdir` succeeds exactly when every prefix of the path is passable |
| FileSystems.EnsureCreatesPrefixes | index.js:15-35 | after success, every prefix is a directory, the new entries are only prefixes, and old entries are unchanged |
| FileSystems.EnsureIdempotent | index.js:15-35 | a second `myMkdir` on the same path succeeds and changes nothing |
| FileSystems.EnsureFailsOnFile | index.js:25-29 | a prefix that exists as a file makes `myMkdir` fail |
| FileSystems.FileSystem.constructor | index.js:3 | the filesystem starts from the given well-formed entries |
| FileSystems.FileSystem.Mkdir | index.js:23 | the new state and the outcome are those of `MakeDir` on the resolved path, and the filesystem stays well formed |
| FileSystems.FileSystem.Stat | index.js:26-27 | returns the entry at the resolved path, if there is one |
| FileSystems.FileSystem.WriteFile | index.js:116 | the new state and the outcome are those of `WriteTo` on the resolved path, and the filesystem stays well formed |
| FileSystems.EnsureDirectory | index.js:15-35 | the loop over `mkdir`/`stat` leaves the state and the outcome that `EnsureFrom` gives from prefix 1, and keeps the filesystem well formed |
| Registry.FirstMatch | index.js:49-54 | returns the first position whose record has the candidate's id, or the length of the list when there is none |
| Registry.Upserted | index.js:48-70 | the list grows by at most one record, and the position `FirstMatch` gives holds a record with the candidate's id; `UpsertExisting` and `UpsertNew` give the rest |
| Registry.Upsert | index.js:48-70 | the for-of scan returns the position `FirstMatch` gives and the list `Upserted` gives; the record there has the candidate's id |
| Registry.UpsertKeepsIdsDistinct | index.js:48-70 | an upsert keeps ids distinct, and only the returned position carries the candidate's id |
| Registry.UpsertExisting | index.js:50-53 | for a known id, the length is kept, the record takes every field of the candidate and keeps its other fields, and other records are unchanged |
| Registry.UpsertNew | index.js:55-57 | for a new id, a copy of the candidate is appended and earlier records are unchanged |
| Registry.UpsertTwice | index.js:48-57 | two upserts with one id leave a single record at the first position, with the second candidate's fields over the first's |
| Registry.ReplaceKeepsIdsDistinct | index.js:83-85 | updating fields of a registered record, without changing its id, keeps ids distinct |
| Policy.Configure | index.js:42-46 | every key of the caller's options is kept, and keys that are not defaulted are unchanged |
| Policy.SkipScreenshot | index.js:72-78 | a failed spec is always captured and a pending or disabled one never is; `SkipTable` gives the other statuses |
| Policy.CaptureFlagAlwaysSet | index.js:44 | the configured only-failed flag is truthy for every input, including `false` |
| Policy.SkipUnlessFailed | index.js:72-78 | with the options configured at line 44, a screenshot is skipped exactly when the spec did not fail |
| Policy.SkipTable | index.js:72-78 | pending and disabled specs are always skipped, failed specs never are, and any other status is skipped exactly when the flag is truthy |
| Policy.ConfigureDefaults | index.js:42-46 | a truthy `dest` or `filename` is kept and a falsy one falls back to `e2eReport` or `report.html`; an own `cleanDestination`, even `false`, is kept, and `true` is the default |
| Reporting.Finished | index.js:104-106 | `utcFinished` is now, and `duration` is the elapsed time since `utcStarted` |
| Reporting.FinishedKeeps | index.js:104-106 | finishing changes no field other than the two stamps |
| Reporting.WithCapabilities | index.js:108-111 | the version, platform and browser name are copied from the capabilities; a missing one is `undefined` |
| Reporting.WithCapabilitiesKeeps | index.js:108-111 | recording capabilities changes no field other than the three browser fields |
| Reporting.SanitizeValue | index.js:112-113 | only a string can be sanitised, and its result is a single path component |
| Reporting.SpecDoneEffect | index.js:102-133 | whatever happens, `specDone` keeps the spec's id and keeps the filesystem well formed |
| Reporting.StoreArtifacts | index.js:115-129 | the storage half keeps the spec's id and keeps the filesystem well formed |
| Reporting.Capture | index.js:119-129 | the capture decision either leaves the filesystem unchanged or adds exactly the screenshot file |
| Reporting.JoinNested | index.js:112-116 | joining the destination with the joined storage folder is the same as joining all the segments |
| Reporting.ArtifactPaths | index.js:115-127 | the storage folder resolves to `e2eReport/<suite>/<browser>`, and a file in it to that folder plus the file name |
| Reporting.StorageDirectory | index.js:115 | after the storage folder is ensured, its three levels are directories, old entries are unchanged, and only those levels are new |
| Reporting.JsonWritten | index.js:115-116 | right after the JSON write, the three directories exist and the JSON file holds the record |
| Reporting.StoreStages | index.js:115-119 | a fault-free storage run passed `mkdir` and the JSON write, then reached the capture decision |
| Reporting.ArtifactsStored | index.js:115-129 | on success, the directories exist and the JSON file holds the record as it was before the capture decision |
| Reporting.SkippedSpecStoresOnlyJson | index.js:119-123 | a skipped spec gets `skipPrinting`, no screenshot, and no new entries beyond its directories and JSON file |
| Reporting.CapturedSpecStoresScreenshot | index.js:125-129 | a captured spec gets `screenFile`, and the PNG holds the screenshot |
| Reporting.CaptureFailureKeeps | index.js:125-129 | a capture that fails, with no screenshot or a failed PNG write, leaves the filesystem unchanged, and the record is unchanged or names the screenshot |
| Reporting.StoreFailureKeeps | index.js:115-129 | a failed storage run keeps the record as named, or naming its screenshot; old entries stay, only the JSON file may be overwritten, and nothing is new but the three folders and the JSON file |
| Reporting.Named | index.js:104-113 | the named record keeps the id, has the folder `<suite>/<browser>` and the file `<description>.json`, and keeps its status |
| Reporting.NamedFields | index.js:104-113 | the named record has the finish stamps and the browser name, and keeps its screenshot fields |
| Reporting.SpecDoneReachesStore | index.js:104-116 | when all three names are strings, `specDone` stores the named record under the sanitised names |
| Reporting.SpecDoneNeedsNames | index.js:107-113 | a fault-free `specDone` had capabilities and three string names |
| Reporting.SpecDoneWithoutDriver | index.js:107-111 | without capabilities, the spec keeps its finish stamps, the filesystem is unchanged, and the fault is a driver failure |
| Reporting.SpecDoneNameFaults | index.js:112-113 | a non-string suite, browser name or description gives `NotAString` before any file is touched |
| Reporting.SkippedSpecDone | index.js:102-123 | a skipped spec ends with `skipPrinting`; its JSON file holds the named record without that mark; no PNG is added |
| Reporting.CapturedSpecDone | index.js:102-129 | a captured spec ends with `screenFile`; its JSON file holds the named record, and its PNG holds the screenshot |
| Reporting.ConfiguredRunSkipsUnlessFailed | index.js:119-123 | with the options configured at line 44, a spec that did not fail is marked skipped and gets no PNG |
| Reporting.Reporter.constructor | index.js:37-46 | the options are `Configure(opts)`, both registries are empty, and no suite is running |
| Reporting.Reporter.SuiteStarted | index.js:80-89 | the upserted suite gets an empty spec list and a start stamp, and becomes the running suite; ids stay distinct |
| Reporting.Reporter.SpecStarted | index.js:91-100 | the upserted spec is stamped; it records the running suite's description and is pushed onto that suite's list; without a running suite, or without a spec list, it gives the matching fault and keeps the stamp |
| Reporting.Reporter.StoreSpec | index.js:115-129 | the imperative storage steps give the record, filesystem and fault that `StoreArtifacts` gives |
| Reporting.Reporter.Settle | index.js:104 | the updated spec is written back at its registry position, and ids stay distinct |
| Reporting.Reporter.SpecDone | index.js:102-133 | the registered spec, the filesystem and the fault are those of `SpecDoneEffect` on the upserted spec; suites and the running suite are unchanged |
| Reporting.Reporter.SuiteDone | index.js:135-144 | the upserted suite gets its finish stamps, and the running suite is cleared |

## Left out

- Path normalisation by `path.join`: empty segments, `.` and `..`, and repeated separators are not collapsed. The sanitised names that reach it contain no `/` and no `.`, so a path built from non-empty names is unaffected. Only the POSIX separator `/` is modelled.
- The Windows separator, and any path the operating system treats differently.
- The bytes written: `JSON.stringify` and base64 decoding. A file holds the record or the screenshot payload as a value.
- Floating-point rounding: `duration` is an exact rational number of seconds.
- Coercion of a numeric string or other non-Date `utcStarted` in the Date subtraction, beyond null, booleans, numbers and Dates. Any other value gives NaN.
- Asynchrony: the `await`s in `specDone` and `myMkdir`, and the interleaving of handlers they would allow. Each handler is modelled as running to completion.
- `console.error`: it becomes the returned fault.
- The browser driver and the clock: they are parameters (`caps`, `shot`, `now`). `shot` is read only when a screenshot is taken, as in the source.
- `filename`, `cleanDestination` and `browserCaps`: they are defaulted but never used by the handlers. `dest` is defaulted but never used for output.
- The reporter writes its defaults into the caller's `opts` object. The model keeps the configured copy only, not the effect on the caller's object.
- Reporter.SuiteStarted, Reporter.SuiteDone, Reporter.SpecStarted, Reporter.SpecDone, Reporter.constructor: a `suite`, `spec` or `opts` argument of `null` or `undefined` is not modelled, because the runner always passes an object. Such an argument would throw at `suite.id`, or at the first option read in the constructor. For a spec, `{...null}` would instead register an empty record.
- Id comparison is structural equality of values, not JavaScript `===`. Two distinct object ids or two NaN ids are not modelled.
- Sharing of nested objects between a registered record and the runner's object: `Object.assign` and the spread copy only one level, and the model copies values.
- A `specs` property that is an array the reporter did not create: only the reporter's own spec lists are modelled. Any other value has no `push`.
- Every other OS failure of `mkdir` and `writeFile` is summarised by a set of refused paths that gives `EACCES`.
- A failing `stat`: in the model `stat` always answers with the entry found, so the throw a rejected `stat` after `EEXIST` would cause in `myMkdir` is not modelled.
- Nested suites: `suiteDone` always clears the running suite, so a spec that follows an inner suite inside its outer suite finds no running suite. The model reproduces this, with no suite stack.
