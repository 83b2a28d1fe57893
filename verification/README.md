# Markdown2Doc settings store and tool locators, in Dafny

Markdown2Doc is a desktop markdown editor that exports through two external
programs: pandoc and wkhtmltopdf. This project models the decision logic the
editor relies on to configure and find those programs. It has three parts.

- **EnvUtils** is a layered configuration store. A read falls through four
  tiers in order:
  1. the strongly-typed application settings;
  2. a JSON dictionary held in the `DynamicSettings` setting;
  3. the environment variables, by process, then user, then machine scope;
  4. the bundled resource strings.

  A write goes to the first of the first three tiers that can take the key. The
  model is the class `EnvUtils.SettingsStore`. Its fields are the typed settings,
  the `DynamicSettings` text and the three environment scopes. `SetString` and
  `Remove` change those fields in place, and their contracts state the whole new
  state.
- **PandocDetector** finds pandoc. It tries four stages in order:
  1. the saved `pandocPath`;
  2. the environment variables `PANDOC_HOME`, `PANDOC_PATH` and `PANDOC`;
  3. the bare executable name;
  4. the platform's usual install paths.

  It returns the first candidate that answers `--version` with a usable line.
- **WkHtmlToPdfDetector** finds wkhtmltopdf. It tries the saved
  `wkhtmltopdfPath`, then every PATH directory with `wkhtmltopdf.exe` before
  `wkhtmltopdf`. A cancellation request raises before each PATH directory.

The machine the locators look at is the datatype `Discovery.Host`. It holds the
sets of existing files and directories, and the `System.IO.Path` primitives as
functions (`Path.Combine`, `Path.GetFullPath`, `Path.IsPathRooted`). It also
holds two process oracles: what `<name> --version` writes to stdout and stderr
(or that it failed), and what `where`/`which` prints.

Each detector is a method that returns its result together with `probed`, the
candidates it validated in order. The ghost predicate `Discovery.StopsAtFirst`
says what a trace must look like:
- `probed` is a prefix of the candidate list;
- every probed candidate but the last failed;
- the last one gave the result;
- when the result is null, `probed` is the whole list and all of it failed.

Every such search returns `Discovery.FirstSome`, the pure first-success search.

The string primitives live in `Text`. They include `char.IsWhiteSpace`, `Trim`,
`Split` with `RemoveEmptyEntries`, `FirstOrDefault` and `string.Join`.

Points of the code's behaviour that the model keeps:
- **Setting keys are compared exactly.** Typed settings are looked up by
  property name, and the deserialised dictionary uses the default comparer
  (Markdown2Doc/EnvUtils.cs:217).
- **Reads can return an empty value.** A typed setting whose value is `""` is
  returned as it is (Markdown2Doc/EnvUtils.cs:46-47). Only the later tiers skip
  empty values.
- **Only null deletes from the dynamic map.** `""` is stored like any other
  value (Markdown2Doc/EnvUtils.cs:115-126).
- **Setting null may not make a key absent.** Setting a key to null deletes it
  from the dynamic map. A following read then falls through to the environment
  and the resources, so it is not necessarily absent.
- **`Remove` can stop without deleting anything.** It stops at the dynamic
  tier whenever `DynamicSettings` is declared, even when the key was not in the
  map (Markdown2Doc/EnvUtils.cs:174-183).
- **Cancellation is not always reported.**
  - Pandoc discovery reports a cancelled probe as an invalid candidate (null),
    not as a distinct outcome.
  - wkhtmltopdf discovery raises only when it has a saved path to validate or a
    PATH directory to scan. Otherwise it returns null.
- **wkhtmltopdf has two stages, not four.** It has no environment-variable
  stage and no install-path stage.
- **Pandoc's path can be relative.** When `where`/`which` reports nothing, the
  path pandoc discovery returns is the candidate itself, which can be a bare
  name.

## Model

| member | source | states |
|---|---|---|
| EnvUtils.Assign | Markdown2Doc/EnvUtils.cs:138 | setting a variable to null or "" deletes it, any other value creates or replaces it; no other variable of the scope changes |
| EnvUtils.SettingsStore.EnvValue | Markdown2Doc/EnvUtils.cs:70-72 | the value of the first scope among process, user, machine that defines the name (even an empty value); null exactly when no scope defines it |
| EnvUtils.SettingsStore.ResourceString | Markdown2Doc/EnvUtils.cs:78 | the resource tier answers only with a non-empty string stored under the key, and always does when there is one |
| EnvUtils.SettingsStore.ReadDynamicSettingsDictionary | Markdown2Doc/EnvUtils.cs:206-224 | null exactly when the `DynamicSettings` setting is not declared; the parsed dictionary when it holds one; an empty dictionary when it is blank or does not parse |
| EnvUtils.SettingsStore.GetString | Markdown2Doc/EnvUtils.cs:35-79 | null for a blank key; a typed value wins even when empty (so over a dynamic entry for the same key); otherwise only non-empty values: a non-empty dynamic entry, else the environment value when non-empty, else the resource string |
| EnvUtils.SettingsStore.ListDynamicKeys | Markdown2Doc/EnvUtils.cs:193-202 | exactly the keys of the stored dictionary; none when the setting is missing, blank or corrupt |
| EnvUtils.SettingsStore.WriteDynamicSettingsDictionary | Markdown2Doc/EnvUtils.cs:226-234 | the setting afterwards holds exactly the given dictionary; nothing else changes |
| EnvUtils.SettingsStore.SetEnvironmentVariable | Markdown2Doc/EnvUtils.cs:138 | the target scope becomes Assign of its old variables; the other scopes are unchanged |
| EnvUtils.SettingsStore.SetString | Markdown2Doc/EnvUtils.cs:85-149 | blank key: fails and changes nothing; typed key: stores `value ?? ""` and nothing else changes; with `DynamicSettings` declared: null removes the key (rewriting only if it was there), any other value including "" is upserted, environment untouched; otherwise the target scope is assigned, or it fails with nothing changed when that scope cannot be written; round trips: a following GetString returns the stored value (typed, dynamic non-empty, or environment when no earlier scope shadows it) and ListDynamicKeys gains or loses the key |
| EnvUtils.SettingsStore.Remove | Markdown2Doc/EnvUtils.cs:154-188 | blank key: nothing changes; typed key: reset to null, nothing else changes; with `DynamicSettings` declared: the key is deleted from the dictionary (stopping there even if it was absent) and the environment is untouched; otherwise only the process-scope variable is cleared |
| Text.Trim | Markdown2Doc/WkHtmlToPdfDetector.cs:95-96 | the result is the part of the input after its leading white space and before a tail that is all white space; empty exactly when the input is blank; otherwise it starts and ends with a non-white-space character |
| Text.TrimmedIsFixed | Markdown2Doc/PandocInfo.cs:145 | a string that neither starts nor ends with white space trims to itself |
| Text.Split | Markdown2Doc/PandocInfo.cs:203 | every part is non-empty and free of separators; no parts exactly when the input is all separators (SplitAtSeparator and SplitOfPart fix where parts begin and end) |
| Text.SplitKeepsEverythingElse | Markdown2Doc/PandocInfo.cs:203 | the parts, concatenated, are the input with its separators removed: splitting loses nothing else |
| Text.SplitAtSeparator | Markdown2Doc/WkHtmlToPdfDetector.cs:30 | a separator between two pieces of text ends the parts of the first and starts those of the second: the split of the whole is the split of the piece before it followed by the split of the piece after it, nothing merged across it |
| Text.SplitOfPart | Markdown2Doc/WkHtmlToPdfDetector.cs:30 | a non-empty text without separators is exactly one part, itself |
| Text.FirstLine | Markdown2Doc/PandocInfo.cs:203 | null exactly when the text is all line breaks (never for non-blank text); otherwise the non-empty run starting at the first non-break character and ending at the next line break or the end |
| Text.FirstLineAfterUnbroken | Markdown2Doc/WkHtmlToPdfDetector.cs:103 | the first line of `x + y`, x non-empty and break-free, is x extended by y's characters up to y's first line break |
| Text.FirstLineOfNonBreak | Markdown2Doc/WkHtmlToPdfDetector.cs:103 | text that does not start with a line break has as first line its leading break-free run |
| Text.Join | Markdown2Doc/WkHtmlToPdfDetector.cs:99 | joining nothing gives "", one piece gives that piece, two pieces are separated by the separator once |
| Discovery.FirstSome | Markdown2Doc/PandocInfo.cs:34-98 | the search over ordered candidates: null exactly when every candidate fails, otherwise the validation of some candidate |
| Discovery.FirstSomeIsFirst | Markdown2Doc/PandocInfo.cs:89-93 | a successful search answers with the validation of a candidate before which every candidate failed |
| Discovery.FirstSomeAppend | Markdown2Doc/PandocInfo.cs:34-98 | searching two candidate lists one after the other is searching their concatenation |
| Discovery.StopsAtFirstFindsFirst | Markdown2Doc/PandocInfo.cs:34-98 | a search that stops at its first success returns the first success |
| Discovery.StopsAtFirstExtend | Markdown2Doc/PandocInfo.cs:43 | a success ends the search whatever later stages would have tried |
| Discovery.StopsAtFirstHead | Markdown2Doc/PandocInfo.cs:39-44 | when the first candidate validates, it is the only one probed and its validation is the answer |
| Discovery.SearchInOrder | Markdown2Doc/PandocInfo.cs:89-93 | the loop over one stage's candidates validates them in order and stops at the first success, failing candidates before it only |
| Discovery.SearchStages | Markdown2Doc/PandocInfo.cs:34-99 | running the stages one after the other, each stopping at its first success, probes exactly a first-success trace of all candidates and returns FirstSome of them |
| Discovery.FlattenAppend | Markdown2Doc/PandocInfo.cs:34-99 | the candidates of consecutive stage lists concatenate |
| Discovery.SavedCandidate | Markdown2Doc/PandocInfo.cs:39-44 | the saved path is a candidate exactly when GetString gives a value that is not blank, and then it is that value |
| PandocDetector.ExecutableFileName | Markdown2Doc/PandocInfo.cs:269-274 | "pandoc.exe" exactly on Windows, "pandoc" elsewhere |
| PandocDetector.CommonInstallPaths | Markdown2Doc/PandocInfo.cs:279-314 | five locations on Windows, three on macOS, four on Linux; on macOS and Linux each is an absolute path of a file named pandoc |
| PandocDetector.WindowsInstallPaths | Markdown2Doc/PandocInfo.cs:281-294 | five locations; each is built by `Path.Combine` from a known folder, and nothing more is stated about that text |
| PandocDetector.MacInstallPaths | Markdown2Doc/PandocInfo.cs:295-303 | three locations, each an absolute path of a file named pandoc |
| PandocDetector.LinuxInstallPaths | Markdown2Doc/PandocInfo.cs:304-313 | four locations, each an absolute path of a file named pandoc; the last is `/home/<user name>/.local/bin/pandoc` |
| PandocDetector.VersionLine | Markdown2Doc/PandocInfo.cs:200-214 | null exactly when both streams are blank; else the first non-empty line of stdout when stdout is not blank, otherwise that of stderr; never empty, never containing a line break |
| PandocDetector.GetPandocVersion | Markdown2Doc/PandocInfo.cs:159-214 | a version only for a non-blank name whose `--version` run completed; for such a run, exactly the line VersionLine picks from its output (null when both streams are blank) |
| PandocDetector.ResolveFullPath | Markdown2Doc/PandocInfo.cs:225-264 | for a non-blank name whose `where`/`which` ran, exactly the first non-empty line of what it printed (null when it printed only line breaks); null otherwise |
| PandocDetector.Expand | Markdown2Doc/PandocInfo.cs:110-113 | a candidate that is an existing directory becomes that directory combined with ExecutableFileName; any other candidate is validated as it is |
| PandocDetector.TryValidatePandocPath | Markdown2Doc/PandocInfo.cs:105-154 | succeeds exactly when the candidate is not blank, the (expanded) executable is not a rooted missing file, and its version line exists and is not blank; then the version is that line trimmed (non-empty, no line breaks), and the path is the resolved path unless that is null or blank, else the executable |
| PandocDetector.MissingRootedPathStartsNothing | Markdown2Doc/PandocInfo.cs:118-120 | a rooted candidate that is not an existing file is rejected whatever the processes would print: no process is consulted |
| PandocDetector.VersionIsFirstStdoutLine | Markdown2Doc/PandocInfo.cs:200-205 | when stdout begins with a non-blank line, that line trimmed is the version, whatever follows it and whatever stderr holds |
| PandocDetector.StdoutFirstLineValidates | Markdown2Doc/PandocInfo.cs:130-145 | when stdout is not blank, a non-blank first non-empty line of it (even after leading line breaks) validates, and the version is that line trimmed |
| PandocDetector.StderrFirstLineValidates | Markdown2Doc/PandocInfo.cs:208-212 | when stdout is blank, a non-blank first non-empty line of stderr validates, and the version is that line trimmed |
| PandocDetector.WhiteSpaceFirstLineRejects | Markdown2Doc/PandocInfo.cs:133 | a white-space-only first stdout line rejects the candidate even when stderr holds a version line |
| PandocDetector.DirectoryMeansItsExecutable | Markdown2Doc/PandocInfo.cs:110-113 | validating a directory is validating the pandoc executable inside it |
| PandocDetector.EnvCandidate | Markdown2Doc/PandocInfo.cs:56-66 | a variable gives a candidate exactly when its value (process, then user, then machine scope) is not null or blank, and the candidate is that value expanded to the executable when it is a directory |
| PandocDetector.EnvCandidates | Markdown2Doc/PandocInfo.cs:51-73 | each variable's EnvCandidate, concatenated in list order: at most one candidate per variable, a single variable gives exactly its own candidate (EnvCandidatesAppend and EnvCandidatesNone give the rest) |
| PandocDetector.EnvCandidatesAppend | Markdown2Doc/PandocInfo.cs:53-68 | the candidates of consecutive variable lists concatenate, so the variables are tried in list order |
| PandocDetector.EnvCandidatesNone | Markdown2Doc/PandocInfo.cs:53-68 | variables that are all unset or blank give no candidate |
| PandocDetector.Stages | Markdown2Doc/PandocInfo.cs:34-95 | four stages whose candidates, in order, are: the saved path, the environment variables' candidates, the bare name, the install paths |
| PandocDetector.DetectPandoc | Markdown2Doc/PandocInfo.cs:34-99 | the probe trace is a first-success trace of the staged candidates and the result is the first successful validation, null when all fail |
| PandocDetector.SavedPathShortCircuits | Markdown2Doc/PandocInfo.cs:39-44 | a saved path that validates is the only candidate probed and gives the result |
| PandocDetector.BareNameFirstWithoutSettings | Markdown2Doc/PandocInfo.cs:51-83 | with no saved path and no environment variable set, the bare name and then the install paths are all that is tried |
| PandocDetector.ValidatesToLineAndLocation | Markdown2Doc/PandocInfo.cs:130-145 | a candidate printing a trimmed version line validates to that line and the first line `where`/`which` prints |
| PandocDetector.FoundOnSearchPath | Markdown2Doc/PandocInfo.cs:77-83 | end to end: nothing saved, no environment variable, the bare name answers with a version line: discovery returns that line and the located path |
| PandocDetector.SaveUserSelectedPath | Markdown2Doc/PandocInfo.cs:338-343 | a blank path changes nothing; any other is exactly SetString("pandocPath", path) at user scope |
| WkHtmlToPdfDetector.PathSeparator | Markdown2Doc/WkHtmlToPdfDetector.cs:30 | ';' exactly on Windows, ':' elsewhere; neither is white space or a line break |
| WkHtmlToPdfDetector.PathDirectories | Markdown2Doc/WkHtmlToPdfDetector.cs:29-30 | the directories are non-empty and separator-free; there are none exactly when the process PATH is unset or only separators |
| WkHtmlToPdfDetector.PathEntriesInOrder | Markdown2Doc/WkHtmlToPdfDetector.cs:29-32 | a separator in PATH splits it: the directories are those of the text before it, in order, followed by those of the text after it |
| WkHtmlToPdfDetector.OnePathEntry | Markdown2Doc/WkHtmlToPdfDetector.cs:29-32 | a non-empty PATH without a separator is exactly one directory, the whole PATH |
| WkHtmlToPdfDetector.TwoPathEntries | Markdown2Doc/WkHtmlToPdfDetector.cs:29-32 | two non-empty entries around one separator are exactly two directories, in PATH order |
| WkHtmlToPdfDetector.NonBlankStreams | Markdown2Doc/WkHtmlToPdfDetector.cs:95-99 | the trimmed streams that are not blank, stdout first: none when both are blank, both when neither is, otherwise the one that is not |
| WkHtmlToPdfDetector.VersionString | Markdown2Doc/WkHtmlToPdfDetector.cs:95-103 | null exactly when both streams are blank; otherwise a non-empty string without line breaks (the whole-string fallback is never taken) |
| WkHtmlToPdfDetector.NonBlankJoin | Markdown2Doc/WkHtmlToPdfDetector.cs:99-100 | joining non-blank streams is blank only when there are none |
| WkHtmlToPdfDetector.VersionOfJoined | Markdown2Doc/WkHtmlToPdfDetector.cs:99-103 | when a stream is not blank, the version is the first line of the joined streams |
| WkHtmlToPdfDetector.BothStreamsJoined | Markdown2Doc/WkHtmlToPdfDetector.cs:99 | with both streams non-blank the joined text is trimmed stdout, one space, trimmed stderr |
| WkHtmlToPdfDetector.OneLineStdoutTakesStderrFirstLine | Markdown2Doc/WkHtmlToPdfDetector.cs:95-103 | a one-line stdout gets stderr's first line appended after one space |
| WkHtmlToPdfDetector.MultiLineStdoutGivesItsFirstLine | Markdown2Doc/WkHtmlToPdfDetector.cs:95-103 | a multi-line stdout gives just its first line, whatever stderr holds |
| WkHtmlToPdfDetector.BlankStdoutFallsBackToStderr | Markdown2Doc/WkHtmlToPdfDetector.cs:95-103 | with a blank stdout the version is the first line of trimmed stderr |
| WkHtmlToPdfDetector.StdoutAloneIsTheVersion | Markdown2Doc/WkHtmlToPdfDetector.cs:95-103 | with a blank stderr and a trimmed stdout that is one line, the version is that trimmed stdout |
| WkHtmlToPdfDetector.TryValidateWkhtmlPath | Markdown2Doc/WkHtmlToPdfDetector.cs:58-111 | succeeds exactly for a non-blank path that is not a directory (which is not expanded) whose `--version` run completed with some non-blank stream; then the path is the full path of the candidate and the version is VersionString of the output |
| WkHtmlToPdfDetector.ExistingFiles | Markdown2Doc/WkHtmlToPdfDetector.cs:39-40 | only existing files are kept, at most as many as given |
| WkHtmlToPdfDetector.NamesIn | Markdown2Doc/WkHtmlToPdfDetector.cs:26 | two candidate paths per directory |
| WkHtmlToPdfDetector.PathCandidates | Markdown2Doc/WkHtmlToPdfDetector.cs:32-45 | the PATH scan only ever validates existing files |
| WkHtmlToPdfDetector.Candidates | Markdown2Doc/WkHtmlToPdfDetector.cs:18-54 | after the saved path, every candidate is an existing file from the PATH scan: there is no environment-variable or install-path stage |
| WkHtmlToPdfDetector.ScanDirectory | Markdown2Doc/WkHtmlToPdfDetector.cs:37-45 | within one directory, the existing candidates are validated in name order and the first success ends the scan |
| WkHtmlToPdfDetector.ScanPath | Markdown2Doc/WkHtmlToPdfDetector.cs:32-51 | with a cancellation request and some directory it raises before validating anything; otherwise directories are scanned in order and the trace is a first-success trace of the PATH candidates |
| WkHtmlToPdfDetector.PathCandidatesNext | Markdown2Doc/WkHtmlToPdfDetector.cs:32-45 | the candidates of one more directory come after those of the directories before it |
| WkHtmlToPdfDetector.PathScanStop | Markdown2Doc/WkHtmlToPdfDetector.cs:43 | a success in one directory ends the whole PATH scan |
| WkHtmlToPdfDetector.DetectWkhtml | Markdown2Doc/WkHtmlToPdfDetector.cs:15-55 | with a cancellation request nothing is validated and it raises when there is a saved path or a PATH directory, else returns null; without one, the trace is a first-success trace of saved path then PATH candidates and the result is the first success, null when all fail |
| WkHtmlToPdfDetector.SavedPathShortCircuits | Markdown2Doc/WkHtmlToPdfDetector.cs:18-23 | a saved path that validates is the only candidate probed and gives the result |
| WkHtmlToPdfDetector.SaveUserSelectedPath | Markdown2Doc/WkHtmlToPdfDetector.cs:145-150 | a blank path changes nothing; any other is exactly SetString("wkhtmltopdfPath", path) at user scope |

## Left out

- Concurrency is not modelled: the `lock` around the dynamic dictionary, `async`/`Task.Run`, and the process-exit plumbing (`Exited` event, `TaskCompletionSource`, the `Thread.Sleep` poll loop, `Kill`). The model is single-threaded, so the lost-update property of concurrent writers has no counterpart.
- JSON serialisation of `DynamicSettings` is not modelled. The text is `Blank`, `Corrupt` or `Json(map)`; null values and duplicate keys are not represented.
- A failing `Save()` is not modelled. If saving a typed setting throws, the source falls through to the next tier.
- The case-insensitive comparer of a freshly created dictionary is not modelled. That dictionary is created empty and receives a single insert, so the comparer has no observable effect.
- ListDynamicKeys: returns the keys as a set. The source returns an array in the dictionary's enumeration order (Markdown2Doc/EnvUtils.cs:198), and that order is not modelled; no modelled operation depends on it.
- `DynamicSettings` is itself a typed setting in the source, so `GetString("DynamicSettings")` returns the raw JSON text. The model keeps the typed map and the JSON text apart.
- The resx and reflection fallback (Markdown2Doc/EnvUtils.cs:236-292) is a read-only map. The `assembly`, `baseName` and `culture` parameters of `GetString` are not modelled.
- Environment variable names are matched as exact strings: each scope is a map keyed by the name. On Windows the environment calls match names case-insensitively (Markdown2Doc/EnvUtils.cs:70-72, Markdown2Doc/EnvUtils.cs:138, Markdown2Doc/EnvUtils.cs:187, Markdown2Doc/PandocInfo.cs:56-58, Markdown2Doc/WkHtmlToPdfDetector.cs:29), and this is not modelled.
- An environment write that throws is modelled only as a scope the process may not write.
- SetString: the store follows Windows environment semantics for the user and machine scopes. On macOS and Linux, .NET's `Environment.SetEnvironmentVariable(name, value, User|Machine)` returns normally and stores nothing, and `GetEnvironmentVariable(name, User|Machine)` always returns null. So there, a `SetString` that reaches the environment tier with a user or machine target (Markdown2Doc/EnvUtils.cs:138) succeeds without persisting anything. The model instead assigns the scope's map, so its GetString round trip is promised on every platform. This also applies to `SetEnvironmentVariable`, `EnvValue` and `Remove` on those scopes, and to the user-scope writes of both `SaveUserSelectedPath` methods.
- Path primitives are uninterpreted functions of `Host`: `Path.Combine`, `GetFullPath`, `IsPathRooted`. Any exception they throw for a malformed path is not modelled. In wkhtmltopdf's PATH scan, such an exception would skip that directory.
- Process launches are oracles of `Host`: `--version` and `where`/`which`. Pandoc has no bounded wait, and a cancelled pandoc probe is an oracle answer of "failed", which is how `TryValidatePandocPathAsync` treats it.
- DetectWkhtml: the cancellation request is a boolean fixed for the whole call. A request that arrives during a validation inside the PATH scan is swallowed there by the source's `catch`, and this is not modelled.
- DetectPandoc: the environment-variable candidates are computed before stage 2 is searched, whereas the source reads each variable just before validating it. This is equivalent because validation changes no environment variable.
- The Windows branch for names without ".exe" (Markdown2Doc/PandocInfo.cs:123-128) does nothing in the source, so it has no counterpart here.
- WindowsInstallPaths: states only that there are five locations. `Path.Combine` is uninterpreted, so nothing is proved about the text of the combined paths.
- The file pickers `AskUserToLocatePandocFile` and `AskUserToLocateWkhtmlFile`, `PandocInfo.ToString`, and the `ENV_OUTPUT` key constant, which no modelled operation reads, are not modelled.
- The GUI files Form1.cs, SettingForm.cs and Program.cs are not part of this model.
